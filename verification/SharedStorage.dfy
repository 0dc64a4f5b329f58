/**
 Attaching shared storage to every Slurm set of a values tree (pkg/bundler/slinky_storage.go).

 Here the tree is a value, and the rewrite a function with its properties; `ValuesStore` is the code that
 works on references and computes it. The syntax checks of the Kubernetes libraries (DNS names,
 quantities) and the notion of white space are arbitrary predicates.
 */
module SharedStorage {
  import opened Prelude

  type Fields = map<string, Value>

  datatype Value =
    | Null | Bool(b: bool) | Str(s: string) | Number(n: int) | List(items: seq<Value>) | Obj(fields: Fields)

  datatype Syntax = Syntax(space: char -> bool, dnsName: string -> bool, positiveQuantity: string -> bool)

  datatype Volume = Volume(claim: string, name: string, mountPath: string)

  /* ---- Reading the storage section ---- */

  function TrimLeft(space: char -> bool, s: string): string {
    if s != "" && space(s[0]) then TrimLeft(space, s[1..]) else s
  }

  function TrimRight(space: char -> bool, s: string): string {
    if s != "" && space(s[|s| - 1]) then TrimRight(space, s[..|s| - 1]) else s
  }

  function Trim(space: char -> bool, s: string): string {
    TrimRight(space, TrimLeft(space, s))
  }

  /** `requiredString` */
  function RequiredString(x: Syntax, config: Fields, key: string): Option<string> {
    if key in config && config[key].Str? && Trim(x.space, config[key].s) != ""
    then Some(Trim(x.space, config[key].s)) else None
  }

  /** `parseSlinkySharedVolume`: the normalised section and the claim name. */
  function ParseVolume(x: Syntax, storage: Fields, key: string): Option<(Fields, string)> {
    if key !in storage || !storage[key].Obj? then None
    else
      var config := storage[key].fields;
      match (RequiredString(x, config, "name"), RequiredString(x, config, "storageClassName"),
             RequiredString(x, config, "size"))
      case (Some(name), Some(class_), Some(size)) =>
        if x.dnsName(name) && x.dnsName(class_) && x.positiveQuantity(size) then
          var normal := config["name" := Str(name)]["storageClassName" := Str(class_)]["size" := Str(size)];
          Some((storage[key := Obj(normal)], name))
        else None
      case _ => None
  }

  /* ---- One list of named objects ---- */

  function NameOf(v: Value): Option<Value> {
    if v.Obj? && "name" in v.fields then Some(v.fields["name"]) else None
  }

  /** `appendNamedObject`: looks at the entries in order until one has the name. */
  function AppendFrom(entries: seq<Value>, entry: Value, i: nat): (r: Option<seq<Value>>)
    requires i <= |entries|
    ensures r.Some? ==> r.value == entries || r.value == entries + [entry]
    decreases |entries| - i
  {
    if i == |entries| then Some(entries + [entry])
    else if !entries[i].Obj? then None
    else if NameOf(entries[i]) != NameOf(entry) then AppendFrom(entries, entry, i + 1)
    else if entries[i] == entry then Some(entries)
    else None
  }

  method AppendNamedObject(entries: seq<Value>, entry: Value) returns (r: Option<seq<Value>>)
    ensures r == AppendFrom(entries, entry, 0)
  {
    for i := 0 to |entries|
      invariant AppendFrom(entries, entry, 0) == AppendFrom(entries, entry, i)
    {
      if !entries[i].Obj? { return None; }
      if NameOf(entries[i]) == NameOf(entry) {
        if entries[i] == entry { return Some(entries); }
        return None;
      }
    }
    return Some(entries + [entry]);
  }

  /** `namedObjectList` */
  function NamedList(parent: Fields, key: string): Option<seq<Value>> {
    if key !in parent || parent[key].Null? then Some([])
    else if parent[key].List? then Some(parent[key].items)
    else None
  }

  /** `objectField` without its side effect: a missing or null field counts as an empty object. */
  function ObjectField(parent: Fields, key: string): Option<Fields> {
    if key !in parent || parent[key].Null? then Some(map[])
    else if parent[key].Obj? then Some(parent[key].fields)
    else None
  }

  /** Both shared volumes in one list of one parent. */
  function AttachBoth(parent: Fields, key: string, first: Value, second: Value): Option<Fields> {
    match NamedList(parent, key)
    case None => None
    case Some(entries) =>
      match AppendFrom(entries, first, 0)
      case None => None
      case Some(one) =>
        match AppendFrom(one, second, 0)
        case None => None
        case Some(two) => Some(parent[key := List(two)])
  }

  /** The entry for a container's volumeMounts list. */
  function MountEntry(v: Volume): Value {
    Obj(map["name" := Str(v.name), "mountPath" := Str(v.mountPath)])
  }

  /** The entry for a pod's volumes list. */
  function VolumeEntry(v: Volume): Value {
    Obj(map["name" := Str(v.name), "persistentVolumeClaim" := Obj(map["claimName" := Str(v.claim)])])
  }

  /** Mounts in the container of a set, volumes in its pod spec. */
  function AttachSet(set_: Value, container: string, home: Volume, data: Volume): Option<Value> {
    if !set_.Obj? then None
    else match (ObjectField(set_.fields, container), ObjectField(set_.fields, "podSpec"))
      case (Some(c), Some(p)) =>
        (match (AttachBoth(c, "volumeMounts", MountEntry(home), MountEntry(data)),
                AttachBoth(p, "volumes", VolumeEntry(home), VolumeEntry(data)))
         case (Some(c'), Some(p')) => Some(Obj(set_.fields[container := Obj(c')]["podSpec" := Obj(p')]))
         case _ => None)
      case _ => None
  }

  /** All sets under one key; a missing or null section has none. */
  function AttachSets(values: Fields, key: string, container: string, home: Volume, data: Volume): Option<Fields> {
    if key !in values || values[key].Null? then Some(values)
    else if !values[key].Obj? then None
    else
      var sets := values[key].fields;
      if AllAttach(sets, container, home, data) then Some(values[key := Obj(AttachEach(sets, container, home, data))])
      else None
  }

  predicate AllAttach(sets: Fields, container: string, home: Volume, data: Volume) {
    forall n :: n in sets ==> AttachSet(sets[n], container, home, data).Some?
  }

  function AttachEach(sets: Fields, container: string, home: Volume, data: Volume): Fields
    requires AllAttach(sets, container, home, data)
  {
    map n | n in sets :: AttachSet(sets[n], container, home, data).value
  }

  datatype Result = Unchanged | Invalid | Updated(values: Fields)

  /** Both volumes of the section, which is normalised on the way; they need different claims. */
  function ParseVolumes(x: Syntax, storage: Fields): Option<(Fields, Volume, Volume)> {
    match ParseVolume(x, storage, "home")
    case None => None
    case Some(h) =>
      match ParseVolume(x, h.0, "data")
      case None => None
      case Some(d) =>
        if h.1 == d.1 then None
        else Some((d.0, Volume(h.1, "shared-home", "/home"), Volume(d.1, "shared-data", "/scratch/fsw")))
  }

  /** The storage section after validation, with the two volumes. */
  function ParseStorage(x: Syntax, values: Fields, supported: bool): Option<Option<(Fields, Volume, Volume)>> {
    if "storage" !in values then Some(None)
    else if !values["storage"].Obj? then None
    else
      var storage := values["storage"].fields;
      if !(storage.Keys <= {"enabled", "home", "data"}) then None
      else if "enabled" !in storage then Some(None)
      else if !storage["enabled"].Bool? then None
      else if !storage["enabled"].b then Some(None)
      else if !supported then None
      else match ParseVolumes(x, storage)
        case None => None
        case Some(volumes) => Some(Some(volumes))
  }

  function Materialized(x: Syntax, values: Fields, supported: bool): Result {
    match ParseStorage(x, values, supported)
    case None => Invalid
    case Some(None) => Unchanged
    case Some(Some((storage, home, data))) =>
      match AttachSets(values["storage" := Obj(storage)], "loginsets", "login", home, data)
      case None => Invalid
      case Some(one) =>
        match AttachSets(one, "nodesets", "slurmd", home, data)
        case None => Invalid
        case Some(two) => Updated(two)
  }

  /* ---- One list ---- */

  /** All objects of the list have different names. */
  ghost predicate UniqueNames(entries: seq<Value>) {
    forall i, j :: 0 <= i < j < |entries| && NameOf(entries[i]).Some? ==> NameOf(entries[i]) != NameOf(entries[j])
  }

  /** Appending keeps the old entries as a prefix, adds at most the entry, and keeps names unique. */
  lemma {:induction false} AppendedEntries(entries: seq<Value>, entry: Value, i: nat)
    requires i <= |entries| && AppendFrom(entries, entry, i).Some? && NameOf(entry).Some?
    requires forall j :: 0 <= j < i ==> NameOf(entries[j]) != NameOf(entry)
    ensures var r := AppendFrom(entries, entry, i).value;
            && (r == entries || r == entries + [entry]) && entry in r
            && (r != entries ==> forall j :: 0 <= j < |entries| ==> NameOf(entries[j]) != NameOf(entry))
            && (UniqueNames(entries) ==> UniqueNames(r))
    decreases |entries| - i
  {
    if i < |entries| && NameOf(entries[i]) != NameOf(entry) {
      AppendedEntries(entries, entry, i + 1);
    }
  }

  /** Exactly when an entry may stay out, exactly when it is added, and a refusal is everything else. */
  lemma {:induction false} AppendOutcomes(entries: seq<Value>, entry: Value, i: nat)
    requires i <= |entries| && entry.Obj? && "name" in entry.fields
    ensures AppendFrom(entries, entry, i) == Some(entries) <==>
              exists k :: i <= k < |entries| && entries[k] == entry
                && forall j :: i <= j < k ==>
                     && entries[j].Obj?
                     && !("name" in entries[j].fields && entries[j].fields["name"] == entry.fields["name"])
    ensures AppendFrom(entries, entry, i) == Some(entries + [entry]) <==>
              forall j :: i <= j < |entries| ==>
                && entries[j].Obj?
                && !("name" in entries[j].fields && entries[j].fields["name"] == entry.fields["name"])
    decreases |entries| - i
  {
    if i < |entries| {
      AppendOutcomes(entries, entry, i + 1);
      assert entries != entries + [entry];
    }
  }

  lemma {:induction false} AppendSettles(entries: seq<Value>, entry: Value, more: seq<Value>, i: nat)
    requires i <= |entries| && entry.Obj? && AppendFrom(entries, entry, i).Some?
    ensures var r := AppendFrom(entries, entry, i).value;
            AppendFrom(r + more, entry, i) == Some(r + more)
    decreases |entries| - i
  {
    if i == |entries| {
      assert (entries + [entry] + more)[i] == entry;
    } else {
      var r := AppendFrom(entries, entry, i).value;
      assert (r + more)[i] == entries[i];
      if NameOf(entries[i]) != NameOf(entry) {
        AppendSettles(entries, entry, more, i + 1);
      }
    }
  }

  /** After both appends each entry is settled, so a second run changes nothing. */
  lemma AttachBothSettles(parent: Fields, key: string, first: Value, second: Value)
    requires first.Obj? && second.Obj? && AttachBoth(parent, key, first, second).Some?
    ensures var r := AttachBoth(parent, key, first, second).value; AttachBoth(r, key, first, second) == Some(r)
  {
    var entries := NamedList(parent, key).value;
    var one := AppendFrom(entries, first, 0).value;
    var two := AppendFrom(one, second, 0).value;
    AppendSettles(entries, first, two[|one|..], 0);
    assert one + two[|one|..] == two;
    AppendSettles(one, second, [], 0);
    assert two + [] == two;
    var r := AttachBoth(parent, key, first, second).value;
    assert r[key := List(two)] == r;
  }

  /**
   What one list looks like afterwards: the old entries are a prefix, both volumes are in it, names that
   were unique stay unique, and nothing else in the parent changed.
   */
  lemma AttachBothMeaning(parent: Fields, key: string, first: Value, second: Value)
    requires NameOf(first).Some? && NameOf(second).Some? && AttachBoth(parent, key, first, second).Some?
    ensures var r := AttachBoth(parent, key, first, second).value;
            && r.Keys == parent.Keys + {key} && (forall k :: k in parent && k != key ==> r[k] == parent[k])
            && r[key].List? && NamedList(parent, key).Some?
            && var before, after := NamedList(parent, key).value, r[key].items;
               && before <= after && |after| <= |before| + 2
               && first in after && second in after
               && (UniqueNames(before) ==> UniqueNames(after))
  {
    var entries := NamedList(parent, key).value;
    AppendedEntries(entries, first, 0);
    AppendedEntries(AppendFrom(entries, first, 0).value, second, 0);
  }

  /* ---- The whole tree ---- */

  lemma AttachSetSettles(set_: Value, container: string, home: Volume, data: Volume)
    requires container != "podSpec" && AttachSet(set_, container, home, data).Some?
    ensures var r := AttachSet(set_, container, home, data); AttachSet(r.value, container, home, data) == r
  {
    var c, p := ObjectField(set_.fields, container).value, ObjectField(set_.fields, "podSpec").value;
    AttachBothSettles(c, "volumeMounts", MountEntry(home), MountEntry(data));
    AttachBothSettles(p, "volumes", VolumeEntry(home), VolumeEntry(data));
    var r := AttachSet(set_, container, home, data).value;
    var c' := AttachBoth(c, "volumeMounts", MountEntry(home), MountEntry(data)).value;
    var p' := AttachBoth(p, "volumes", VolumeEntry(home), VolumeEntry(data)).value;
    assert r.fields[container := Obj(c')]["podSpec" := Obj(p')] == r.fields;
  }

  /** What has become of one set: both mounts, both volumes, and everything else as it was. */
  ghost predicate SetServed(before: Value, after: Value, container: string, home: Volume, data: Volume) {
    && before.Obj? && after.Obj? && after.fields.Keys == before.fields.Keys + {container, "podSpec"}
    && (forall f :: f in before.fields && f != container && f != "podSpec" ==>
          f in after.fields && after.fields[f] == before.fields[f])
    && ListServed(before.fields, after.fields, container, "volumeMounts", MountEntry(home), MountEntry(data))
    && ListServed(before.fields, after.fields, "podSpec", "volumes", VolumeEntry(home), VolumeEntry(data))
  }

  /** One field of an object was set, everything else in it is as it was. */
  ghost predicate OnlyKeyChanged(before: Fields, after: Fields, key: string) {
    after.Keys == before.Keys + {key} && forall f :: f in before && f != key ==> after[f] == before[f]
  }

  /** The list `key` of the object `field`: old entries first, both new ones in it, unique names still unique. */
  ghost predicate ListServed(before: Fields, after: Fields, field: string, key: string, first: Value, second: Value) {
    && ObjectField(before, field).Some? && field in after && after[field].Obj?
    && OnlyKeyChanged(ObjectField(before, field).value, after[field].fields, key)
    && var b, a := NamedList(ObjectField(before, field).value, key), NamedList(after[field].fields, key);
       && b.Some? && a.Some? && b.value <= a.value && |a.value| <= |b.value| + 2
       && first in a.value && second in a.value
       && (UniqueNames(b.value) ==> UniqueNames(a.value))
  }

  lemma AttachSetMeaning(set_: Value, container: string, home: Volume, data: Volume)
    requires container != "podSpec" && AttachSet(set_, container, home, data).Some?
    ensures SetServed(set_, AttachSet(set_, container, home, data).value, container, home, data)
  {
    var after := AttachSet(set_, container, home, data).value.fields;
    AttachedList(set_.fields, after, container, "volumeMounts", MountEntry(home), MountEntry(data));
    AttachedList(set_.fields, after, "podSpec", "volumes", VolumeEntry(home), VolumeEntry(data));
  }

  lemma AttachedList(before: Fields, after: Fields, field: string, key: string, first: Value, second: Value)
    requires NameOf(first).Some? && NameOf(second).Some? && ObjectField(before, field).Some?
    requires AttachBoth(ObjectField(before, field).value, key, first, second).Some?
    requires field in after
    requires after[field] == Obj(AttachBoth(ObjectField(before, field).value, key, first, second).value)
    ensures ListServed(before, after, field, key, first, second)
  {
    AttachBothMeaning(ObjectField(before, field).value, key, first, second);
  }

  lemma AttachEachSettles(sets: Fields, container: string, home: Volume, data: Volume)
    requires container != "podSpec" && AllAttach(sets, container, home, data)
    ensures var r := AttachEach(sets, container, home, data);
            AllAttach(r, container, home, data) && AttachEach(r, container, home, data) == r
  {
    var r := AttachEach(sets, container, home, data);
    forall n | n in r
      ensures AttachSet(r[n], container, home, data) == Some(r[n])
    {
      AttachSetSettles(sets[n], container, home, data);
    }
    EachSettled(r, container, home, data);
  }

  lemma EachSettled(r: Fields, container: string, home: Volume, data: Volume)
    requires forall n :: n in r ==> AttachSet(r[n], container, home, data) == Some(r[n])
    ensures AllAttach(r, container, home, data) && AttachEach(r, container, home, data) == r
  {
  }

  lemma AttachSetsSettles(values: Fields, key: string, container: string, home: Volume, data: Volume, later: Fields)
    requires container != "podSpec" && AttachSets(values, key, container, home, data).Some?
    requires var r := AttachSets(values, key, container, home, data).value;
             (key in later <==> key in r) && (key in r ==> later[key] == r[key])
    ensures AttachSets(later, key, container, home, data) == Some(later)
  {
    if key in values && !values[key].Null? {
      AttachEachSettles(values[key].fields, container, home, data);
      assert later[key := later[key]] == later;
    }
  }

  /** The same sets in a section, each of them served. */
  ghost predicate SectionServed(before: Fields, after: Fields, key: string, container: string, home: Volume,
                                data: Volume) {
    key in before && before[key].Obj? ==>
      && key in after && after[key].Obj? && after[key].fields.Keys == before[key].fields.Keys
      && forall n :: n in before[key].fields ==>
           SetServed(before[key].fields[n], after[key].fields[n], container, home, data)
  }

  lemma AttachSetsServed(values: Fields, key: string, container: string, home: Volume, data: Volume)
    requires container != "podSpec" && AttachSets(values, key, container, home, data).Some?
    ensures SectionServed(values, AttachSets(values, key, container, home, data).value, key, container, home, data)
  {
    if key in values && values[key].Obj? {
      forall n | n in values[key].fields
        ensures SetServed(values[key].fields[n], AttachSets(values, key, container, home, data).value[key].fields[n],
                          container, home, data)
      {
        AttachSetMeaning(values[key].fields[n], container, home, data);
      }
    }
  }

  /** Every login set and node set of the result, enabled or not, is served. */
  lemma EverySetIsServed(x: Syntax, values: Fields, supported: bool)
    requires Materialized(x, values, supported).Updated?
    ensures var r := Materialized(x, values, supported).values;
            var (_, home, data) := ParseStorage(x, values, supported).value.value;
            && SectionServed(values, r, "loginsets", "login", home, data)
            && SectionServed(values, r, "nodesets", "slurmd", home, data)
  {
    var (storage, home, data) := ParseStorage(x, values, supported).value.value;
    var zero := values["storage" := Obj(storage)];
    var one := AttachSets(zero, "loginsets", "login", home, data).value;
    AttachSetsServed(zero, "loginsets", "login", home, data);
    AttachSetsServed(one, "nodesets", "slurmd", home, data);
  }

  lemma {:induction false} TrimLeftStops(space: char -> bool, s: string)
    ensures var t := TrimLeft(space, s); t == "" || !space(t[0])
  {
    if s != "" && space(s[0]) { TrimLeftStops(space, s[1..]); }
  }

  lemma {:induction false} TrimRightStops(space: char -> bool, s: string)
    ensures var t := TrimRight(space, s); t <= s && (t == "" || !space(t[|t| - 1]))
  {
    if s != "" && space(s[|s| - 1]) { TrimRightStops(space, s[..|s| - 1]); }
  }

  lemma TrimTwice(space: char -> bool, s: string)
    ensures Trim(space, Trim(space, s)) == Trim(space, s)
  {
    var left := TrimLeft(space, s);
    TrimLeftStops(space, s);
    TrimRightStops(space, left);
    var t := Trim(space, s);
    if t != "" { assert t[0] == left[0]; }
  }

  lemma {:induction false} TrimmedLeft(space: char -> bool, s: string) returns (front: string)
    ensures s == front + TrimLeft(space, s) && forall c :: c in front ==> space(c)
  {
    front := "";
    if s != "" && space(s[0]) {
      var rest := TrimmedLeft(space, s[1..]);
      front := [s[0]] + rest;
      assert s == [s[0]] + s[1..];
    }
  }

  lemma {:induction false} TrimmedRight(space: char -> bool, s: string) returns (back: string)
    ensures s == TrimRight(space, s) + back && forall c :: c in back ==> space(c)
  {
    back := "";
    if s != "" && space(s[|s| - 1]) {
      var rest := TrimmedRight(space, s[..|s| - 1]);
      back := rest + [s[|s| - 1]];
      assert s == s[..|s| - 1] + [s[|s| - 1]];
    }
  }

  /** Trimming cuts white space off both ends, nothing else, and all of it. */
  lemma TrimCutsSpaceOnly(space: char -> bool, s: string) returns (front: string, back: string)
    ensures s == front + Trim(space, s) + back && forall c :: c in front || c in back ==> space(c)
    ensures var t := Trim(space, s); t != "" ==> !space(t[0]) && !space(t[|t| - 1])
  {
    front := TrimmedLeft(space, s);
    back := TrimmedRight(space, TrimLeft(space, s));
    TrimLeftStops(space, s);
    TrimRightStops(space, TrimLeft(space, s));
  }

  lemma ParseVolumeSettles(x: Syntax, storage: Fields, key: string, later: Fields)
    requires ParseVolume(x, storage, key).Some?
    requires key in later && later[key] == ParseVolume(x, storage, key).value.0[key]
    ensures ParseVolume(x, later, key) == Some((later, ParseVolume(x, storage, key).value.1))
  {
    var config := storage[key].fields;
    TrimTwice(x.space, config["name"].s);
    TrimTwice(x.space, config["storageClassName"].s);
    TrimTwice(x.space, config["size"].s);
    var normal := later[key].fields;
    assert normal["name" := normal["name"]]["storageClassName" := normal["storageClassName"]]["size" := normal["size"]]
           == normal;
    assert later[key := Obj(normal)] == later;
  }

  lemma ParseStorageSettles(x: Syntax, values: Fields, supported: bool, later: Fields)
    requires ParseStorage(x, values, supported).Some? && ParseStorage(x, values, supported).value.Some?
    requires "storage" in later && later["storage"] == Obj(ParseStorage(x, values, supported).value.value.0)
    ensures ParseStorage(x, later, supported) == ParseStorage(x, values, supported)
  {
    var storage := ParseStorage(x, values, supported).value.value.0;
    var section := values["storage"].fields;
    var h := ParseVolume(x, section, "home").value;
    ParseVolumeSettles(x, section, "home", storage);
    ParseVolumeSettles(x, h.0, "data", storage);
  }

  /** All-or-nothing is the contract of `Materialize`; this is idempotence: a second run changes nothing. */
  lemma MaterializingTwiceChangesNothing(x: Syntax, values: Fields, supported: bool)
    requires Materialized(x, values, supported).Updated?
    ensures var r := Materialized(x, values, supported); Materialized(x, r.values, supported) == r
  {
    var (storage, home, data) := ParseStorage(x, values, supported).value.value;
    var zero := values["storage" := Obj(storage)];
    var one := AttachSets(zero, "loginsets", "login", home, data).value;
    var two := AttachSets(one, "nodesets", "slurmd", home, data).value;
    SettledSets(zero, one, two, home, data);
    ParseStorageSettles(x, values, supported, two);
    SettledStays(x, two, supported, storage, home, data);
  }

  lemma SettledSets(zero: Fields, one: Fields, two: Fields, home: Volume, data: Volume)
    requires "storage" in zero
    requires AttachSets(zero, "loginsets", "login", home, data) == Some(one)
    requires AttachSets(one, "nodesets", "slurmd", home, data) == Some(two)
    ensures "storage" in two && two["storage"] == zero["storage"] && two["storage" := zero["storage"]] == two
    ensures AttachSets(two, "loginsets", "login", home, data) == Some(two)
    ensures AttachSets(two, "nodesets", "slurmd", home, data) == Some(two)
  {
    AttachSetsSettles(zero, "loginsets", "login", home, data, two);
    AttachSetsSettles(one, "nodesets", "slurmd", home, data, two);
  }

  lemma SettledStays(x: Syntax, values: Fields, supported: bool, storage: Fields, home: Volume, data: Volume)
    requires "storage" in values && values["storage" := Obj(storage)] == values
    requires ParseStorage(x, values, supported) == Some(Some((storage, home, data)))
    requires AttachSets(values, "loginsets", "login", home, data) == Some(values)
    requires AttachSets(values, "nodesets", "slurmd", home, data) == Some(values)
    ensures Materialized(x, values, supported) == Updated(values)
  {
  }

  /** The two volumes never share a claim, and sections other than the three named ones stay as they are. */
  lemma MaterializedTouchesOnlyItsSections(x: Syntax, values: Fields, supported: bool)
    requires Materialized(x, values, supported).Updated?
    ensures supported && ParseStorage(x, values, supported).Some? && ParseStorage(x, values, supported).value.Some?
    ensures var (_, home, data) := ParseStorage(x, values, supported).value.value;
            home.claim != data.claim && x.dnsName(home.claim) && x.dnsName(data.claim)
    ensures var r := Materialized(x, values, supported).values;
            && r.Keys == values.Keys
            && forall k :: k in values && k !in {"storage", "loginsets", "nodesets"} ==> r[k] == values[k]
  {
  }

  /* ---- The section in, the section out ---- */

  /** Nothing is asked for, and nothing checked further, in exactly these cases. */
  lemma NothingToDo(x: Syntax, values: Fields, supported: bool)
    ensures Materialized(x, values, supported) == Unchanged <==>
              "storage" in values ==>
                && values["storage"].Obj?
                && (forall k :: k in values["storage"].fields ==> k == "enabled" || k == "home" || k == "data")
                && ("enabled" in values["storage"].fields ==> values["storage"].fields["enabled"] == Bool(false))
  {
  }

  /** The claims of a storage section are accepted exactly in these cases. */
  lemma ClaimsAreAccepted(x: Syntax, storage: Fields)
    ensures ParseVolumes(x, storage).Some? <==>
              && (forall key :: key in ["home", "data"] ==>
                    && key in storage && storage[key].Obj?
                    && forall f :: f in ["name", "storageClassName", "size"] ==>
                         && f in storage[key].fields && storage[key].fields[f].Str?
                         && Trim(x.space, storage[key].fields[f].s) != ""
                         && (if f == "size" then x.positiveQuantity(Trim(x.space, storage[key].fields[f].s))
                             else x.dnsName(Trim(x.space, storage[key].fields[f].s))))
              && Trim(x.space, storage["home"].fields["name"].s) != Trim(x.space, storage["data"].fields["name"].s)
  {
    VolumeIsAccepted(x, storage, "home");
    if ParseVolume(x, storage, "home").Some? {
      VolumeIsAccepted(x, ParseVolume(x, storage, "home").value.0, "data");
    }
  }

  lemma VolumeIsAccepted(x: Syntax, storage: Fields, key: string)
    ensures ParseVolume(x, storage, key).Some? <==>
              && key in storage && storage[key].Obj?
              && forall f :: f in ["name", "storageClassName", "size"] ==>
                   && f in storage[key].fields && storage[key].fields[f].Str?
                   && Trim(x.space, storage[key].fields[f].s) != ""
                   && (if f == "size" then x.positiveQuantity(Trim(x.space, storage[key].fields[f].s))
                       else x.dnsName(Trim(x.space, storage[key].fields[f].s)))
  {
    assert "name" in ["name", "storageClassName", "size"];
    assert "storageClassName" in ["name", "storageClassName", "size"];
    assert "size" in ["name", "storageClassName", "size"];
  }

  lemma VolumeIsTrimmed(x: Syntax, storage: Fields, key: string)
    requires ParseVolume(x, storage, key).Some?
    ensures key in storage && storage[key].Obj?
    ensures var (after, claim) := ParseVolume(x, storage, key).value;
            && after.Keys == storage.Keys && (forall k :: k in storage && k != key ==> after[k] == storage[k])
            && after[key].Obj? && after[key].fields.Keys == storage[key].fields.Keys
            && (forall f :: f in storage[key].fields ==>
                  if f in ["name", "storageClassName", "size"]
                  then && storage[key].fields[f].Str?
                       && after[key].fields[f] == Str(Trim(x.space, storage[key].fields[f].s))
                  else after[key].fields[f] == storage[key].fields[f])
            && "name" in after[key].fields && after[key].fields["name"] == Str(claim)
  {
  }

  /** Both volumes of a section: names, paths and claims. */
  lemma VolumesAreNamed(x: Syntax, section: Fields)
    requires ParseVolumes(x, section).Some?
    ensures var (after, home, data) := ParseVolumes(x, section).value;
            && home.name == "shared-home" && home.mountPath == "/home"
            && data.name == "shared-data" && data.mountPath == "/scratch/fsw"
            && home.claim != data.claim
            && "home" in after && after["home"].Obj? && "name" in after["home"].fields
            && "data" in after && after["data"].Obj? && "name" in after["data"].fields
            && after["home"].fields["name"] == Str(home.claim) && after["data"].fields["name"] == Str(data.claim)
  {
    VolumeIsTrimmed(x, section, "home");
    VolumeIsTrimmed(x, ParseVolume(x, section, "home").value.0, "data");
  }

  /** A section after parsing is the section with the three strings of both volumes trimmed. */
  lemma TheSectionIsTrimmed(x: Syntax, section: Fields, key: string)
    requires ParseVolumes(x, section).Some?
    ensures var after := ParseVolumes(x, section).value.0;
            && after.Keys == section.Keys
            && (key in section && key != "home" && key != "data" ==> after[key] == section[key])
            && (key == "home" || key == "data" ==>
                  && key in section && section[key].Obj? && after[key].Obj?
                  && after[key].fields.Keys == section[key].fields.Keys
                  && forall f :: f in section[key].fields ==>
                       if f in ["name", "storageClassName", "size"]
                       then && section[key].fields[f].Str?
                            && after[key].fields[f] == Str(Trim(x.space, section[key].fields[f].s))
                       else after[key].fields[f] == section[key].fields[f])
  {
    VolumeIsTrimmed(x, section, "home");
    VolumeIsTrimmed(x, ParseVolume(x, section, "home").value.0, "data");
  }

  /** The storage section of the result is the parsed one, and the sets are served with its volumes. */
  lemma TheResult(x: Syntax, values: Fields, supported: bool)
    returns (r: Fields, section: Fields, storage: Fields, home: Volume, data: Volume)
    requires Materialized(x, values, supported).Updated?
    ensures supported && r == Materialized(x, values, supported).values
    ensures "storage" in values && values["storage"] == Obj(section)
    ensures "enabled" in section && section["enabled"] == Bool(true)
    ensures ParseVolumes(x, section) == Some((storage, home, data))
    ensures "storage" in r && r["storage"] == Obj(storage)
    ensures SectionServed(values, r, "loginsets", "login", home, data)
    ensures SectionServed(values, r, "nodesets", "slurmd", home, data)
  {
    EverySetIsServed(x, values, supported);
    r, section := Materialized(x, values, supported).values, values["storage"].fields;
    var parsed := ParseStorage(x, values, supported).value.value;
    storage, home, data := parsed.0, parsed.1, parsed.2;
    assert r["storage"] == Obj(storage);
  }

  /** A served set, spelled out. */
  lemma ServedMeans(before: Value, after: Value, container: string, home: Volume, data: Volume)
    requires SetServed(before, after, container, home, data)
    ensures before.Obj? && after.Obj? && container in after.fields && after.fields[container].Obj?
    ensures "volumeMounts" in after.fields[container].fields && after.fields[container].fields["volumeMounts"].List?
    ensures var mounts := after.fields[container].fields["volumeMounts"].items;
            && Obj(map["name" := Str(home.name), "mountPath" := Str(home.mountPath)]) in mounts
            && Obj(map["name" := Str(data.name), "mountPath" := Str(data.mountPath)]) in mounts
    ensures "podSpec" in after.fields && after.fields["podSpec"].Obj?
    ensures "volumes" in after.fields["podSpec"].fields && after.fields["podSpec"].fields["volumes"].List?
    ensures var volumes := after.fields["podSpec"].fields["volumes"].items;
            && Obj(map["name" := Str(home.name),
                       "persistentVolumeClaim" := Obj(map["claimName" := Str(home.claim)])]) in volumes
            && Obj(map["name" := Str(data.name),
                       "persistentVolumeClaim" := Obj(map["claimName" := Str(data.claim)])]) in volumes
  {
    assert ListServed(before.fields, after.fields, container, "volumeMounts", MountEntry(home), MountEntry(data));
    assert ListServed(before.fields, after.fields, "podSpec", "volumes", VolumeEntry(home), VolumeEntry(data));
  }

  /**
   Every login set and node set of the result mounts both volumes in its container, and each volume is backed
   by the claim that the storage section of the result names for it.
   */
  lemma EverySetMountsItsClaims(x: Syntax, values: Fields, supported: bool, section: string, container: string,
                                n: string)
    requires Materialized(x, values, supported).Updated?
    requires (section, container) in [("loginsets", "login"), ("nodesets", "slurmd")]
    requires section in values && values[section].Obj? && n in values[section].fields
    ensures var r := Materialized(x, values, supported).values;
            && section in r && r[section].Obj? && n in r[section].fields && r[section].fields[n].Obj?
            && var s := r[section].fields[n].fields;
               && container in s && s[container].Obj? && "volumeMounts" in s[container].fields
               && s[container].fields["volumeMounts"].List?
               && var mounts := s[container].fields["volumeMounts"].items;
                  && Obj(map["name" := Str("shared-home"), "mountPath" := Str("/home")]) in mounts
                  && Obj(map["name" := Str("shared-data"), "mountPath" := Str("/scratch/fsw")]) in mounts
    ensures var r := Materialized(x, values, supported).values;
            && "storage" in r && r["storage"].Obj? && "home" in r["storage"].fields && "data" in r["storage"].fields
            && r["storage"].fields["home"].Obj? && "name" in r["storage"].fields["home"].fields
            && r["storage"].fields["data"].Obj? && "name" in r["storage"].fields["data"].fields
            && var home, data := r["storage"].fields["home"].fields["name"], r["storage"].fields["data"].fields["name"];
               var s := r[section].fields[n].fields;
               && home != data && "podSpec" in s && s["podSpec"].Obj? && "volumes" in s["podSpec"].fields
               && s["podSpec"].fields["volumes"].List?
               && var volumes := s["podSpec"].fields["volumes"].items;
                  && Obj(map["name" := Str("shared-home"),
                             "persistentVolumeClaim" := Obj(map["claimName" := home])]) in volumes
                  && Obj(map["name" := Str("shared-data"),
                             "persistentVolumeClaim" := Obj(map["claimName" := data])]) in volumes
  {
    var r, section_, storage, home, data := TheResult(x, values, supported);
    VolumesAreNamed(x, section_);
    assert SectionServed(values, r, section, container, home, data);
    ServedMeans(values[section].fields[n], r[section].fields[n], container, home, data);
  }

  /** Names, classes and sizes in the result are the trimmed ones of the input. */
  lemma TheClaimsAreTheInputs(x: Syntax, values: Fields, supported: bool, key: string, f: string)
    requires Materialized(x, values, supported).Updated?
    requires key in ["home", "data"] && f in ["name", "storageClassName", "size"]
    ensures "storage" in values && values["storage"].Obj? && key in values["storage"].fields
    ensures values["storage"].fields[key].Obj? && f in values["storage"].fields[key].fields
    ensures values["storage"].fields[key].fields[f].Str?
    ensures var r := Materialized(x, values, supported).values;
            && "storage" in r && r["storage"].Obj? && key in r["storage"].fields && r["storage"].fields[key].Obj?
            && f in r["storage"].fields[key].fields
            && r["storage"].fields[key].fields[f] == Str(Trim(x.space, values["storage"].fields[key].fields[f].s))
  {
    var r, section, storage, home, data := TheResult(x, values, supported);
    TheSectionIsTrimmed(x, section, key);
    ClaimsAreAccepted(x, section);
    assert f in section[key].fields;
  }

  /** What was in a set stays in it: other fields, other fields of the two objects, and all list entries in order. */
  lemma ServedKeeps(before: Value, after: Value, container: string, home: Volume, data: Volume, f: string)
    requires SetServed(before, after, container, home, data)
    ensures before.Obj? && after.Obj? && (f in before.fields ==> f in after.fields)
    ensures f in before.fields && f != container && f != "podSpec" ==> after.fields[f] == before.fields[f]
    ensures (f == container || f == "podSpec") && f in before.fields && before.fields[f].Obj? ==>
              && after.fields[f].Obj?
              && forall k :: k in before.fields[f].fields ==>
                   && k in after.fields[f].fields
                   && if k == if f == "podSpec" then "volumes" else "volumeMounts"
                      then before.fields[f].fields[k].List? ==>
                             && after.fields[f].fields[k].List?
                             && before.fields[f].fields[k].items <= after.fields[f].fields[k].items
                      else after.fields[f].fields[k] == before.fields[f].fields[k]
  {
    assert ListServed(before.fields, after.fields, container, "volumeMounts", MountEntry(home), MountEntry(data));
    assert ListServed(before.fields, after.fields, "podSpec", "volumes", VolumeEntry(home), VolumeEntry(data));
  }

  /** Two entries of different names get into one list exactly when each of them alone would. */
  lemma BothAttach(parent: Fields, key: string, first: Value, second: Value)
    requires first.Obj? && "name" in first.fields && second.Obj? && "name" in second.fields
    requires first.fields["name"] != second.fields["name"]
    ensures AttachBoth(parent, key, first, second).Some? <==>
              key in parent && parent[key] != Null ==>
                && parent[key].List?
                && AppendFrom(parent[key].items, first, 0).Some? && AppendFrom(parent[key].items, second, 0).Some?
  {
    if NamedList(parent, key).Some? {
      var entries := NamedList(parent, key).value;
      if AppendFrom(entries, first, 0).Some? {
        OthersDoNotMatter(entries, first, second, 0);
      }
    }
  }

  lemma {:induction false} OthersDoNotMatter(entries: seq<Value>, other: Value, entry: Value, i: nat)
    requires i <= |entries| && other.Obj? && NameOf(other) != NameOf(entry)
    ensures AppendFrom(entries + [other], entry, i).Some? <==> AppendFrom(entries, entry, i).Some?
    decreases |entries| - i
  {
    if i < |entries| {
      OthersDoNotMatter(entries, other, entry, i + 1);
    }
  }

  /** A set can be served exactly when what it has already is well-formed and does not conflict. */
  lemma SetsThatAttach(set_: Value, container: string, home: Volume, data: Volume)
    requires home.name != data.name
    ensures AttachSet(set_, container, home, data).Some? <==>
              && set_.Obj?
              && (container in set_.fields && set_.fields[container] != Null ==>
                    set_.fields[container].Obj? && ListAccepts(set_.fields[container].fields, "volumeMounts",
                                                               MountEntry(home), MountEntry(data)))
              && ("podSpec" in set_.fields && set_.fields["podSpec"] != Null ==>
                    set_.fields["podSpec"].Obj? && ListAccepts(set_.fields["podSpec"].fields, "volumes",
                                                               VolumeEntry(home), VolumeEntry(data)))
  {
    if set_.Obj? && ObjectField(set_.fields, container).Some? && ObjectField(set_.fields, "podSpec").Some? {
      BothAttach(ObjectField(set_.fields, container).value, "volumeMounts", MountEntry(home), MountEntry(data));
      BothAttach(ObjectField(set_.fields, "podSpec").value, "volumes", VolumeEntry(home), VolumeEntry(data));
    }
  }

  /** The list is missing or null, or accepts both entries. */
  predicate ListAccepts(parent: Fields, key: string, first: Value, second: Value) {
    key in parent && parent[key] != Null ==>
      && parent[key].List?
      && AppendFrom(parent[key].items, first, 0).Some? && AppendFrom(parent[key].items, second, 0).Some?
  }

  lemma WhenSetsAttach(values: Fields, key: string, container: string, home: Volume, data: Volume)
    ensures var r := AttachSets(values, key, container, home, data);
            && (r.Some? <==> (key in values && values[key] != Null ==>
                                && values[key].Obj?
                                && forall n :: n in values[key].fields ==>
                                     AttachSet(values[key].fields[n], container, home, data).Some?))
            && (r.Some? ==> && r.value.Keys == values.Keys
                            && forall k :: k in values && k != key ==> r.value[k] == values[k])
  {
  }

  lemma WhenRewritten(x: Syntax, values: Fields, storage: Fields, home: Volume, data: Volume)
    requires ParseStorage(x, values, true) == Some(Some((storage, home, data)))
    ensures Materialized(x, values, true).Updated? <==>
              && AttachSets(values, "loginsets", "login", home, data).Some?
              && AttachSets(values, "nodesets", "slurmd", home, data).Some?
  {
    var zero := values["storage" := Obj(storage)];
    WhenSetsAttach(zero, "loginsets", "login", home, data);
    WhenSetsAttach(values, "loginsets", "login", home, data);
    WhenSetsAttach(values, "nodesets", "slurmd", home, data);
    if AttachSets(zero, "loginsets", "login", home, data).Some? {
      WhenSetsAttach(AttachSets(zero, "loginsets", "login", home, data).value, "nodesets", "slurmd", home, data);
    }
  }

  /** The rewrite takes place exactly when it is asked for and supported, and the claims and every set are accepted. */
  lemma WhenMaterialized(x: Syntax, values: Fields, supported: bool)
    ensures Materialized(x, values, supported).Updated? <==>
              && supported && "storage" in values && values["storage"].Obj?
              && (forall k :: k in values["storage"].fields ==> k == "enabled" || k == "home" || k == "data")
              && "enabled" in values["storage"].fields && values["storage"].fields["enabled"] == Bool(true)
              && ParseVolumes(x, values["storage"].fields).Some?
              && var (_, home, data) := ParseVolumes(x, values["storage"].fields).value;
                 && ("loginsets" in values && values["loginsets"] != Null ==>
                       && values["loginsets"].Obj?
                       && forall n :: n in values["loginsets"].fields ==>
                            AttachSet(values["loginsets"].fields[n], "login", home, data).Some?)
                 && ("nodesets" in values && values["nodesets"] != Null ==>
                       && values["nodesets"].Obj?
                       && forall n :: n in values["nodesets"].fields ==>
                            AttachSet(values["nodesets"].fields[n], "slurmd", home, data).Some?)
  {
    var parsed := ParseStorage(x, values, supported);
    if parsed.Some? && parsed.value.Some? {
      var (storage, home, data) := parsed.value.value;
      WhenRewritten(x, values, storage, home, data);
      WhenSetsAttach(values, "loginsets", "login", home, data);
      WhenSetsAttach(values, "nodesets", "slurmd", home, data);
    }
  }
}
