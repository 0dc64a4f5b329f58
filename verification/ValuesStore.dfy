/**
 The rewrite of a values tree as the code performs it (pkg/bundler/slinky_storage.go): maps are
 references, the caller's tree is copied deeply, the copy is changed in place, and only then is the
 caller's map cleared and refilled. Parts of the caller's tree may be shared.
 */
module ValuesStore {
  import opened Prelude
  import opened SharedStorage

  type Ref = nat

  /** A value as it is held: scalars and lists directly, maps by reference. */
  datatype Node = Atom(value: Value) | Items(nodes: seq<Node>) | Link(ref: Ref)

  type Store = map<Ref, map<string, Node>>

  /* ---- Reading and separation ---- */

  /** The node stands for the value. */
  ghost predicate Reads(s: Store, n: Node, v: Value)
    decreases v
  {
    match v
    case Obj(fields) =>
      && n.Link? && n.ref in s && s[n.ref].Keys == fields.Keys
      && forall k :: k in fields ==> Reads(s, s[n.ref][k], fields[k])
    case List(items) =>
      n.Items? && |n.nodes| == |items| && forall i :: 0 <= i < |items| ==> Reads(s, n.nodes[i], items[i])
    case _ => n == Atom(v)
  }

  /** The references a reader of the node follows. */
  ghost function Foot(s: Store, n: Node, v: Value): set<Ref>
    requires Reads(s, n, v)
    decreases v
  {
    match v
    case Obj(fields) => {n.ref} + set k, q | k in fields && q in Foot(s, s[n.ref][k], fields[k]) :: q
    case List(items) => set i, q | 0 <= i < |items| && q in Foot(s, n.nodes[i], items[i]) :: q
    case _ => {}
  }

  /** No map is reached in two ways, as far as maps lie in maps. */
  ghost predicate Separate(s: Store, n: Node, v: Value)
    requires Reads(s, n, v)
    decreases v
  {
    v.Obj? ==>
      && (forall k :: k in v.fields ==>
            n.ref !in Foot(s, s[n.ref][k], v.fields[k]) && Separate(s, s[n.ref][k], v.fields[k]))
      && (forall k, l :: k in v.fields && l in v.fields && k != l ==>
            Foot(s, s[n.ref][k], v.fields[k]) !! Foot(s, s[n.ref][l], v.fields[l]))
  }

  ghost predicate Held(s: Store, n: Node, v: Value) {
    Reads(s, n, v) && Separate(s, n, v)
  }

  /** From `s` to `t` maps were added, and of the old ones only those in `foot` changed. */
  ghost predicate Within(s: Store, t: Store, foot: set<Ref>) {
    forall q :: q in s ==> q in t && (q !in foot ==> t[q] == s[q])
  }

  /** A node stands for at most one value, so a caller's map reads as the rewritten tree alone. */
  lemma {:induction false} ANodeMeansOneValue(s: Store, n: Node, v: Value, w: Value)
    requires Reads(s, n, v) && Reads(s, n, w)
    ensures v == w
    decreases v
  {
    match v
    case Obj(fields) =>
      assert w.Obj?;
      forall k | k in fields
        ensures fields[k] == w.fields[k]
      {
        ANodeMeansOneValue(s, s[n.ref][k], fields[k], w.fields[k]);
      }
      assert fields == w.fields;
    case List(items) =>
      assert w.List?;
      forall i | 0 <= i < |items|
        ensures items[i] == w.items[i]
      {
        ANodeMeansOneValue(s, n.nodes[i], items[i], w.items[i]);
      }
      assert items == w.items;
    case _ =>
  }

  lemma {:induction false} FootIsStored(s: Store, n: Node, v: Value)
    requires Reads(s, n, v)
    ensures Foot(s, n, v) <= s.Keys
    decreases v
  {
    match v
    case Obj(fields) =>
      forall k | k in fields
        ensures Foot(s, s[n.ref][k], fields[k]) <= s.Keys
      {
        FootIsStored(s, s[n.ref][k], fields[k]);
      }
    case List(items) =>
      forall i | 0 <= i < |items|
        ensures Foot(s, n.nodes[i], items[i]) <= s.Keys
      {
        FootIsStored(s, n.nodes[i], items[i]);
      }
    case _ =>
  }

  /** A node keeps its meaning while the maps it reaches do. */
  lemma {:induction false} Frame(s: Store, t: Store, n: Node, v: Value)
    requires Reads(s, n, v) && forall q :: q in Foot(s, n, v) ==> q in t && q in s && t[q] == s[q]
    ensures Reads(t, n, v) && Foot(t, n, v) == Foot(s, n, v)
    ensures Separate(s, n, v) ==> Separate(t, n, v)
    decreases v
  {
    match v
    case Obj(fields) =>
      forall k | k in fields
        ensures Reads(t, s[n.ref][k], fields[k]) && Foot(t, s[n.ref][k], fields[k]) == Foot(s, s[n.ref][k], fields[k])
        ensures Separate(s, s[n.ref][k], fields[k]) ==> Separate(t, s[n.ref][k], fields[k])
      {
        Frame(s, t, s[n.ref][k], fields[k]);
      }
      assert Foot(t, n, v) == Foot(s, n, v);
    case List(items) =>
      forall i | 0 <= i < |items|
        ensures Reads(t, n.nodes[i], items[i]) && Foot(t, n.nodes[i], items[i]) == Foot(s, n.nodes[i], items[i])
      {
        Frame(s, t, n.nodes[i], items[i]);
      }
      assert Foot(t, n, v) == Foot(s, n, v);
    case _ =>
  }

  /** What a field of an object reaches; nothing when it is not there. */
  ghost function FieldFoot(s: Store, r: Ref, fields: Fields, k: string): set<Ref>
    requires Reads(s, Link(r), Obj(fields))
  {
    if k in fields then Foot(s, s[r][k], fields[k]) else {}
  }

  /** `t` differs from `s` in the field `k` of the object `r`, in what that field reached, and in added maps. */
  ghost predicate ChangedAt(s: Store, t: Store, r: Ref, fields: Fields, k: string)
    requires Reads(s, Link(r), Obj(fields))
  {
    && Within(s, t, {r} + FieldFoot(s, r, fields, k))
    && t[r].Keys == fields.Keys + {k} && forall l :: l in fields && l != k ==> t[r][l] == s[r][l]
  }

  lemma OtherFieldsKept(s: Store, t: Store, r: Ref, fields: Fields, k: string, l: string)
    requires Held(s, Link(r), Obj(fields)) && ChangedAt(s, t, r, fields, k)
    requires l in fields && l != k
    ensures Reads(t, t[r][l], fields[l]) && Separate(t, t[r][l], fields[l])
    ensures Foot(t, t[r][l], fields[l]) == Foot(s, s[r][l], fields[l]) <= s.Keys
    ensures r !in Foot(s, s[r][l], fields[l]) && Foot(s, s[r][l], fields[l]) !! FieldFoot(s, r, fields, k)
  {
    FootIsStored(s, s[r][l], fields[l]);
    Frame(s, t, s[r][l], fields[l]);
  }

  /** A field of the changed object: the new one, or one that was kept. */
  lemma FieldAfter(s: Store, t: Store, r: Ref, fields: Fields, k: string, v: Value, l: string)
    requires Held(s, Link(r), Obj(fields)) && ChangedAt(s, t, r, fields, k)
    requires Held(t, t[r][k], v) && Foot(t, t[r][k], v) <= FieldFoot(s, r, fields, k) + (t.Keys - s.Keys)
    requires l in fields[k := v]
    ensures var w := fields[k := v][l];
      && Held(t, t[r][l], w) && r !in Foot(t, t[r][l], w)
      && Foot(t, t[r][l], w) <= FieldFoot(s, r, fields, l) + if l == k then t.Keys - s.Keys else {}
  {
    if l == k {
      assert k in fields ==> r !in Foot(s, s[r][k], fields[k]);
    } else {
      OtherFieldsKept(s, t, r, fields, k, l);
    }
  }

  lemma FieldFeetApart(s: Store, r: Ref, fields: Fields, l: string, m: string)
    requires Held(s, Link(r), Obj(fields)) && l != m
    ensures FieldFoot(s, r, fields, l) !! FieldFoot(s, r, fields, m)
    ensures FieldFoot(s, r, fields, l) <= Foot(s, Link(r), Obj(fields)) * s.Keys
  {
    FootIsStored(s, Link(r), Obj(fields));
  }

  lemma FieldsAfterApart(s: Store, t: Store, r: Ref, fields: Fields, k: string, v: Value, l: string, m: string)
    requires Held(s, Link(r), Obj(fields)) && ChangedAt(s, t, r, fields, k)
    requires Held(t, t[r][k], v) && Foot(t, t[r][k], v) <= FieldFoot(s, r, fields, k) + (t.Keys - s.Keys)
    requires l in fields[k := v] && m in fields[k := v] && l != m
    ensures Reads(t, t[r][l], fields[k := v][l]) && Reads(t, t[r][m], fields[k := v][m])
    ensures Foot(t, t[r][l], fields[k := v][l]) !! Foot(t, t[r][m], fields[k := v][m])
  {
    FieldAfter(s, t, r, fields, k, v, l);
    FieldAfter(s, t, r, fields, k, v, m);
    FieldFeetApart(s, r, fields, l, m);
    FieldFeetApart(s, r, fields, m, l);
  }

  lemma FieldsAfterRead(s: Store, t: Store, r: Ref, fields: Fields, k: string, v: Value)
    requires Held(s, Link(r), Obj(fields)) && ChangedAt(s, t, r, fields, k)
    requires Held(t, t[r][k], v) && Foot(t, t[r][k], v) <= FieldFoot(s, r, fields, k) + (t.Keys - s.Keys)
    ensures Reads(t, Link(r), Obj(fields[k := v]))
    ensures Foot(t, Link(r), Obj(fields[k := v])) <= Foot(s, Link(r), Obj(fields)) + (t.Keys - s.Keys)
  {
    var after := fields[k := v];
    forall l | l in after
      ensures Reads(t, t[r][l], after[l])
      ensures Foot(t, t[r][l], after[l]) <= Foot(s, Link(r), Obj(fields)) + (t.Keys - s.Keys)
    {
      FieldAfter(s, t, r, fields, k, v, l);
      FieldFeetApart(s, r, fields, l, l + "'");
    }
  }

  /**
   Changing one field of a held object in place, or what it reaches, makes the object stand for the
   changed value: nothing else of it was touched.
   */
  lemma FieldUpdated(s: Store, t: Store, r: Ref, fields: Fields, k: string, v: Value)
    requires Held(s, Link(r), Obj(fields)) && ChangedAt(s, t, r, fields, k)
    requires Held(t, t[r][k], v) && Foot(t, t[r][k], v) <= FieldFoot(s, r, fields, k) + (t.Keys - s.Keys)
    ensures Became(s, t, r, fields, fields[k := v])
  {
    FieldsAfterRead(s, t, r, fields, k, v);
    var after := fields[k := v];
    forall l | l in after
      ensures Separate(t, t[r][l], after[l]) && r !in Foot(t, t[r][l], after[l])
    {
      FieldAfter(s, t, r, fields, k, v, l);
    }
    forall l, m | l in after && m in after && l != m
      ensures Foot(t, t[r][l], after[l]) !! Foot(t, t[r][m], after[m])
    {
      FieldsAfterApart(s, t, r, fields, k, v, l, m);
    }
  }

  /** The nodes, one for one, stand for the items; what they reach is apart from `old`. */
  ghost predicate ReadsEach(s: Store, nodes: seq<Node>, items: seq<Value>) {
    |nodes| == |items| && forall i :: 0 <= i < |items| ==> Reads(s, nodes[i], items[i])
  }

  ghost predicate FreshEach(s: Store, nodes: seq<Node>, items: seq<Value>, taken: set<Ref>) {
    ReadsEach(s, nodes, items) && forall i :: 0 <= i < |items| ==> Foot(s, nodes[i], items[i]) !! taken
  }

  /** Copied so far: some fields, each held, apart from what was there before and from each other. */
  ghost predicate CopiedFields(s: Store, copy: map<string, Node>, fields: Fields, taken: set<Ref>) {
    && copy.Keys <= fields.Keys
    && (forall k :: k in copy ==> Held(s, copy[k], fields[k]) && Foot(s, copy[k], fields[k]) !! taken)
    && (forall k, l :: k in copy && l in copy && k != l ==> Foot(s, copy[k], fields[k]) !! Foot(s, copy[l], fields[l]))
  }

  lemma FreshEachGrows(s: Store, t: Store, nodes: seq<Node>, items: seq<Value>, taken: set<Ref>, n: Node, v: Value)
    requires FreshEach(s, nodes, items, taken) && Within(s, t, {})
    requires Reads(t, n, v) && Foot(t, n, v) !! taken
    ensures FreshEach(t, nodes + [n], items + [v], taken)
  {
    forall i | 0 <= i < |items|
      ensures Reads(t, nodes[i], items[i]) && Foot(t, nodes[i], items[i]) !! taken
    {
      FootIsStored(s, nodes[i], items[i]);
      Frame(s, t, nodes[i], items[i]);
    }
  }

  lemma CopiedFieldsGrow(s: Store, t: Store, copy: map<string, Node>, fields: Fields, taken: set<Ref>, k: string,
                         n: Node)
    requires CopiedFields(s, copy, fields, taken) && Within(s, t, {}) && taken <= s.Keys
    requires k in fields && k !in copy && Held(t, n, fields[k]) && Foot(t, n, fields[k]) !! s.Keys
    ensures CopiedFields(t, copy[k := n], fields, taken)
  {
    forall l | l in copy
      ensures Held(t, copy[l], fields[l]) && Foot(t, copy[l], fields[l]) == Foot(s, copy[l], fields[l]) <= s.Keys
    {
      FootIsStored(s, copy[l], fields[l]);
      Frame(s, t, copy[l], fields[l]);
    }
  }

  lemma CopiedObject(s: Store, t: Store, copy: map<string, Node>, fields: Fields, taken: set<Ref>, r: Ref)
    requires CopiedFields(s, copy, fields, taken) && copy.Keys == fields.Keys
    requires r !in s && taken <= s.Keys && t == s[r := copy]
    ensures Held(t, Link(r), Obj(fields)) && Foot(t, Link(r), Obj(fields)) !! taken
  {
    forall k | k in fields
      ensures Held(t, copy[k], fields[k]) && Foot(t, copy[k], fields[k]) == Foot(s, copy[k], fields[k]) <= s.Keys
    {
      FootIsStored(s, copy[k], fields[k]);
      Frame(s, t, copy[k], fields[k]);
    }
    assert Reads(t, Link(r), Obj(fields));
  }

  predicate Scalar(v: Value) {
    !v.Obj? && !v.List?
  }

  lemma ScalarObject(s: Store, r: Ref, fields: Fields)
    requires r in s && s[r].Keys == fields.Keys
    requires forall k :: k in fields ==> Scalar(fields[k]) && s[r][k] == Atom(fields[k])
    ensures Held(s, Link(r), Obj(fields)) && Foot(s, Link(r), Obj(fields)) == {r}
  {
  }

  lemma VolumeObject(s: Store, r: Ref, claim: Ref, v: Volume)
    requires claim in s && s[claim] == map["claimName" := Atom(Str(v.claim))]
    requires r in s && s[r] == map["name" := Atom(Str(v.name)), "persistentVolumeClaim" := Link(claim)]
    ensures Reads(s, Link(r), VolumeEntry(v)) && Foot(s, Link(r), VolumeEntry(v)) == {r, claim}
  {
    ScalarObject(s, claim, map["claimName" := Str(v.claim)]);
    assert VolumeEntry(v).fields["persistentVolumeClaim"] == Obj(map["claimName" := Str(v.claim)]);
  }

  /** The object `r`, changed in place, stands for other fields; it reaches nothing that it did not reach before. */
  ghost predicate Became(s: Store, t: Store, r: Ref, fields: Fields, after: Fields)
    requires Reads(s, Link(r), Obj(fields))
  {
    && Held(t, Link(r), Obj(after))
    && Foot(t, Link(r), Obj(after)) <= Foot(s, Link(r), Obj(fields)) + (t.Keys - s.Keys)
  }

  /** The object was changed in place, and nothing that was there and lies outside of it. */
  ghost predicate Rewrote(s: Store, t: Store, r: Ref, fields: Fields, after: Fields)
    requires Reads(s, Link(r), Obj(fields))
  {
    Within(s, t, Foot(s, Link(r), Obj(fields))) && Became(s, t, r, fields, after)
  }

  lemma WithinAgain(s: Store, m: Store, t: Store, r: Ref, fields: Fields, middle: Fields)
    requires Reads(s, Link(r), Obj(fields)) && Rewrote(s, m, r, fields, middle)
    requires Within(m, t, Foot(m, Link(r), Obj(middle)))
    ensures Within(s, t, Foot(s, Link(r), Obj(fields)))
  {
  }

  lemma RewroteAgain(s: Store, m: Store, t: Store, r: Ref, fields: Fields, middle: Fields, after: Fields)
    requires Reads(s, Link(r), Obj(fields)) && Rewrote(s, m, r, fields, middle)
    requires Rewrote(m, t, r, middle, after)
    ensures Rewrote(s, t, r, fields, after)
  {
    WithinAgain(s, m, t, r, fields, middle);
  }

  lemma FieldShape(s: Store, r: Ref, fields: Fields, k: string)
    requires Reads(s, Link(r), Obj(fields))
    ensures k in s[r] <==> k in fields
    ensures k in fields ==>
      && Reads(s, s[r][k], fields[k])
      && (s[r][k] == Atom(Null) <==> fields[k].Null?)
      && (s[r][k].Link? <==> fields[k].Obj?) && (s[r][k].Items? <==> fields[k].List?)
      && (s[r][k].Atom? ==> s[r][k].value == fields[k])
  {
  }

  /** The parent holds the object `c` under the key, and its other fields as before. */
  ghost predicate HoldsObject(s: Store, t: Store, parent: Ref, fields: Fields, key: string, c: Ref, sub: Fields)
    requires Reads(s, Link(parent), Obj(fields))
  {
    && Became(s, t, parent, fields, fields[key := Obj(sub)])
    && t[parent][key] == Link(c)
    && (forall l :: l in fields && l != key ==> t[parent][l] == s[parent][l])
  }

  /** What `objectField` does to a parent without the object. */
  lemma ObjectInserted(s: Store, t: Store, parent: Ref, fields: Fields, key: string, c: Ref)
    requires Held(s, Link(parent), Obj(fields)) && c !in s
    requires t == s[c := map[]][parent := s[parent][key := Link(c)]]
    ensures HoldsObject(s, t, parent, fields, key, c, map[])
  {
    ScalarObject(t, c, map[]);
    InsertedChangesAt(s, t, parent, fields, key, c);
    FieldUpdated(s, t, parent, fields, key, Obj(map[]));
  }

  lemma InsertedChangesAt(s: Store, t: Store, parent: Ref, fields: Fields, key: string, c: Ref)
    requires Reads(s, Link(parent), Obj(fields)) && c !in s
    requires t == s[c := map[]][parent := s[parent][key := Link(c)]]
    ensures ChangedAt(s, t, parent, fields, key) && c in t.Keys - s.Keys
  {
  }

  lemma ObjectFound(s: Store, parent: Ref, fields: Fields, key: string)
    requires Held(s, Link(parent), Obj(fields)) && key in fields && fields[key].Obj?
    ensures s[parent][key].Link? && HoldsObject(s, s, parent, fields, key, s[parent][key].ref, fields[key].fields)
  {
    FieldShape(s, parent, fields, key);
    assert fields[key := Obj(fields[key].fields)] == fields;
  }

  /** Changing an object that lies in a field, in place, is a change at that field. */
  lemma ChildChangesAt(s: Store, t: Store, r: Ref, fields: Fields, k: string, c: Ref)
    requires Held(s, Link(r), Obj(fields)) && k in fields && fields[k].Obj? && s[r][k] == Link(c)
    requires Within(s, t, Foot(s, Link(c), fields[k]))
    ensures ChangedAt(s, t, r, fields, k) && t[r] == s[r]
  {
    assert r !in Foot(s, s[r][k], fields[k]);
  }

  /** A list of the object `c` is replaced by one made of its old nodes and of new ones. */
  lemma ListReplaced(s: Store, m: Store, c: Ref, fields: Fields, key: string, nodes: seq<Node>, items: seq<Value>)
    requires Held(s, Link(c), Obj(fields)) && Within(s, m, {}) && ReadsEach(m, nodes, items)
    requires Foot(m, Items(nodes), List(items)) <= FieldFoot(s, c, fields, key) + (m.Keys - s.Keys)
    ensures var t := m[c := m[c][key := Items(nodes)]];
      Within(s, t, {c}) && t.Keys == m.Keys && Became(s, t, c, fields, fields[key := List(items)])
  {
    var t := m[c := m[c][key := Items(nodes)]];
    assert key in fields ==> c !in Foot(s, s[c][key], fields[key]);
    FootIsStored(m, Items(nodes), List(items));
    Frame(m, t, Items(nodes), List(items));
    ListChangesAt(s, m, c, fields, key, nodes);
    FieldUpdated(s, t, c, fields, key, List(items));
  }

  lemma ListChangesAt(s: Store, m: Store, c: Ref, fields: Fields, key: string, nodes: seq<Node>)
    requires Reads(s, Link(c), Obj(fields)) && Within(s, m, {})
    ensures ChangedAt(s, m[c := m[c][key := Items(nodes)]], c, fields, key)
  {
  }

  lemma ListGrows(s: Store, t: Store, nodes: seq<Node>, items: seq<Value>, n: Node, v: Value)
    requires ReadsEach(s, nodes, items) && Within(s, t, {}) && Reads(t, n, v) && Foot(t, n, v) <= t.Keys - s.Keys
    ensures ReadsEach(t, nodes + [n], items + [v])
    ensures Foot(t, Items(nodes + [n]), List(items + [v])) <= Foot(s, Items(nodes), List(items)) + (t.Keys - s.Keys)
  {
    forall i | 0 <= i < |items|
      ensures Reads(t, nodes[i], items[i]) && Foot(t, nodes[i], items[i]) == Foot(s, nodes[i], items[i])
    {
      FootIsStored(s, nodes[i], items[i]);
      Frame(s, t, nodes[i], items[i]);
    }
  }

  class Heap {
    var store: Store
    var next: Ref

    constructor ()
      ensures Valid() && store == map[]
    {
      store, next := map[], 0;
    }

    ghost predicate Valid()
      reads this
    {
      forall q :: q in store ==> q < next
    }

    /** A new map. */
    method New(fields: map<string, Node>) returns (r: Ref)
      requires Valid()
      modifies this
      ensures Valid() && r !in old(store) && store == old(store)[r := fields]
    {
      r := next;
      store := store[r := fields];
      next := next + 1;
    }

    /** `DeepCopyAny`: nothing that was there is changed, and nothing that was there is reached from the copy. */
    method DeepCopy(n: Node, ghost v: Value) returns (copy: Node)
      requires Valid() && Reads(store, n, v)
      modifies this
      ensures Valid() && Within(old(store), store, {})
      ensures Held(store, copy, v) && Foot(store, copy, v) !! old(store).Keys
      decreases v
    {
      match n
      case Atom(_) =>
        copy := n;
      case Items(nodes) =>
        var copies := CopyEach(nodes, v.items);
        copy := Items(copies);
      case Link(r) =>
        ghost var before := store;
        var todo, fields := store[r].Keys, map[];
        while todo != {}
          invariant Valid() && Within(before, store, {})
          invariant todo <= before[r].Keys && fields.Keys == before[r].Keys - todo
          invariant CopiedFields(store, fields, v.fields, before.Keys)
        {
          var k :| k in todo;
          FootIsStored(before, before[r][k], v.fields[k]);
          Frame(before, store, before[r][k], v.fields[k]);
          ghost var now := store;
          var field := DeepCopy(store[r][k], v.fields[k]);
          CopiedFieldsGrow(now, store, fields, v.fields, before.Keys, k, field);
          fields := fields[k := field];
          todo := todo - {k};
        }
        ghost var now := store;
        var c := New(fields);
        CopiedObject(now, store, fields, v.fields, before.Keys, c);
        copy := Link(c);
    }

    method CopyEach(nodes: seq<Node>, ghost items: seq<Value>) returns (copies: seq<Node>)
      requires Valid() && ReadsEach(store, nodes, items)
      modifies this
      ensures Valid() && Within(old(store), store, {})
      ensures FreshEach(store, copies, items, old(store).Keys)
      decreases items
    {
      copies := [];
      ghost var before := store;
      for i := 0 to |nodes|
        invariant Valid() && Within(before, store, {})
        invariant FreshEach(store, copies, items[..i], before.Keys)
      {
        FootIsStored(before, nodes[i], items[i]);
        Frame(before, store, nodes[i], items[i]);
        ghost var now := store;
        var copy := DeepCopy(nodes[i], items[i]);
        FreshEachGrows(now, store, copies, items[..i], before.Keys, copy, items[i]);
        assert items[..i + 1] == items[..i] + [items[i]];
        copies := copies + [copy];
      }
      assert items[..|items|] == items;
    }

    /** The value behind a node, as a deep comparison sees it. */
    method Load(n: Node, ghost v: Value) returns (w: Value)
      requires Reads(store, n, v)
      ensures w == v
      decreases v
    {
      match n
      case Atom(a) =>
        w := a;
      case Items(nodes) =>
        var items := LoadEach(nodes, v.items);
        w := List(items);
      case Link(r) =>
        var todo := store[r].Keys;
        var fields: Fields := map[];
        while todo != {}
          invariant todo <= store[r].Keys && fields.Keys == store[r].Keys - todo
          invariant forall k :: k in fields ==> fields[k] == v.fields[k]
        {
          var k :| k in todo;
          var field := Load(store[r][k], v.fields[k]);
          fields := fields[k := field];
          todo := todo - {k};
        }
        assert fields == v.fields;
        w := Obj(fields);
    }

    method LoadEach(nodes: seq<Node>, ghost items: seq<Value>) returns (loaded: seq<Value>)
      requires ReadsEach(store, nodes, items)
      ensures loaded == items
      decreases items
    {
      loaded := [];
      for i := 0 to |nodes|
        invariant loaded == items[..i]
      {
        var w := Load(nodes[i], items[i]);
        assert items[..i + 1] == items[..i] + [items[i]];
        loaded := loaded + [w];
      }
    }

    /** `makeEntry` of a mount target or of a volume target. */
    method MakeEntry(mounts: bool, v: Volume) returns (n: Node)
      requires Valid()
      modifies this
      ensures Valid() && Within(old(store), store, {})
      ensures Reads(store, n, Entry(mounts, v)) && Foot(store, n, Entry(mounts, v)) !! old(store).Keys
    {
      if mounts {
        var r := New(map["name" := Atom(Str(v.name)), "mountPath" := Atom(Str(v.mountPath))]);
        n := Link(r);
        ScalarObject(store, r, MountEntry(v).fields);
      } else {
        var claim := New(map["claimName" := Atom(Str(v.claim))]);
        var r := New(map["name" := Atom(Str(v.name)), "persistentVolumeClaim" := Link(claim)]);
        n := Link(r);
        VolumeObject(store, r, claim, v);
      }
    }

    /** `objectField`: a missing or null field becomes an empty object of the parent. */
    method ObjectFieldOf(parent: Ref, key: string, ghost fields: Fields) returns (r: Option<Ref>)
      requires Valid() && Held(store, Link(parent), Obj(fields))
      modifies this
      ensures Valid() && Within(old(store), store, {parent})
      ensures r.Some? <==> ObjectField(fields, key).Some?
      ensures r.Some? ==>
        HoldsObject(old(store), store, parent, fields, key, r.value, ObjectField(fields, key).value)
    {
      FieldShape(store, parent, fields, key);
      if key !in store[parent] || store[parent][key] == Atom(Null) {
        var c := New(map[]);
        store := store[parent := store[parent][key := Link(c)]];
        ObjectInserted(old(store), store, parent, fields, key, c);
        return Some(c);
      }
      if !store[parent][key].Link? { return None; }
      ObjectFound(store, parent, fields, key);
      return Some(store[parent][key].ref);
    }

    /** `appendNamedObject` on a list read from the store. */
    method AppendTo(nodes: seq<Node>, entries: seq<Value>, mounts: bool, v: Volume)
      returns (r: Option<seq<Value>>, longer: seq<Node>)
      requires Valid() && ReadsEach(store, nodes, entries)
      modifies this
      ensures Valid() && Within(old(store), store, {}) && r == AppendFrom(entries, Entry(mounts, v), 0)
      ensures r.Some? ==>
        && ReadsEach(store, longer, r.value)
        && Foot(store, Items(longer), List(r.value))
           <= Foot(old(store), Items(nodes), List(entries)) + (store.Keys - old(store).Keys)
    {
      ghost var before := store;
      var n := MakeEntry(mounts, v);
      FootIsStored(store, n, Entry(mounts, v));
      ListGrows(before, store, nodes, entries, n, Entry(mounts, v));
      FootIsStored(before, Items(nodes), List(entries));
      Frame(before, store, Items(nodes), List(entries));
      r := AppendNamedObject(entries, Entry(mounts, v));
      longer := if r.Some? && |r.value| > |entries| then nodes + [n] else nodes;
    }

    /** `namedObjectList` */
    method NamedObjectList(c: Ref, key: string, ghost fields: Fields) returns (nodes: Option<seq<Node>>)
      requires Held(store, Link(c), Obj(fields))
      ensures nodes.Some? <==> NamedList(fields, key).Some?
      ensures nodes.Some? ==>
        && ReadsEach(store, nodes.value, NamedList(fields, key).value)
        && Foot(store, Items(nodes.value), List(NamedList(fields, key).value)) <= FieldFoot(store, c, fields, key)
    {
      FieldShape(store, c, fields, key);
      if key !in store[c] || store[c][key] == Atom(Null) { return Some([]); }
      if !store[c][key].Items? { return None; }
      return Some(store[c][key].nodes);
    }

    /** Both volumes appended to a list, one after the other. */
    method AppendVolumes(nodes: seq<Node>, entries: seq<Value>, mounts: bool, home: Volume, data: Volume)
      returns (r: Option<seq<Value>>, longer: seq<Node>)
      requires Valid() && ReadsEach(store, nodes, entries)
      modifies this
      ensures Valid() && Within(old(store), store, {}) && r == AppendedBoth(entries, mounts, home, data)
      ensures r.Some? ==>
        && ReadsEach(store, longer, r.value)
        && Foot(store, Items(longer), List(r.value))
           <= Foot(old(store), Items(nodes), List(entries)) + (store.Keys - old(store).Keys)
    {
      r, longer := AppendTo(nodes, entries, mounts, home);
      if r.None? { return; }
      r, longer := AppendTo(longer, r.value, mounts, data);
    }

    /** Both shared volumes in one list, in place: only the parent `c` of the list is changed. */
    method AttachTarget(c: Ref, mounts: bool, home: Volume, data: Volume, ghost fields: Fields) returns (ok: bool)
      requires Valid() && Held(store, Link(c), Obj(fields))
      modifies this
      ensures Valid() && Within(old(store), store, {c})
      ensures ok <==> Attached(fields, mounts, home, data).Some?
      ensures ok ==> Became(old(store), store, c, fields, Attached(fields, mounts, home, data).value)
    {
      var key := TargetKey(mounts);
      ghost var before := store;
      var list := NamedObjectList(c, key, fields);
      AttachedIs(fields, mounts, home, data);
      if list.None? { return false; }
      var entries := LoadEach(list.value, NamedList(fields, key).value);
      var r, longer := AppendVolumes(list.value, entries, mounts, home, data);
      if r.None? { return false; }
      ListReplaced(before, store, c, fields, key, longer, r.value);
      store := store[c := store[c][key := Items(longer)]];
      return true;
    }

    /** One of the lists of a set, changed in place through the object that holds it. */
    method AttachThrough(set_: Ref, field: string, mounts: bool, home: Volume, data: Volume, ghost fields: Fields)
      returns (ok: bool)
      requires Valid() && Held(store, Link(set_), Obj(fields)) && field in fields && fields[field].Obj?
      modifies this
      ensures Valid() && Within(old(store), store, Foot(old(store), Link(set_), Obj(fields)))
      ensures ok <==> Attached(fields[field].fields, mounts, home, data).Some?
      ensures ok ==> Rewrote(old(store), store, set_, fields,
                             fields[field := Obj(Attached(fields[field].fields, mounts, home, data).value)])
    {
      ghost var before := store;
      FieldShape(store, set_, fields, field);
      var c := store[set_][field].ref;
      ok := AttachTarget(c, mounts, home, data, fields[field].fields);
      assert c in Foot(before, before[set_][field], fields[field]);
      if ok {
        ChildChangesAt(before, store, set_, fields, field, c);
        FieldUpdated(before, store, set_, fields, field, Obj(Attached(fields[field].fields, mounts, home, data).value));
      }
    }

    /** `objectField` on a set. */
    method PrepareField(set_: Ref, field: string, ghost fields: Fields) returns (ok: bool)
      requires Valid() && Held(store, Link(set_), Obj(fields))
      modifies this
      ensures Valid() && Within(old(store), store, Foot(old(store), Link(set_), Obj(fields)))
      ensures ok <==> ObjectField(fields, field).Some?
      ensures ok ==> Rewrote(old(store), store, set_, fields, fields[field := Obj(ObjectField(fields, field).value)])
    {
      var c := ObjectFieldOf(set_, field, fields);
      ok := c.Some?;
    }

    /** The objects for mounts and volumes, created where they are missing. */
    method PrepareSet(set_: Ref, container: string, ghost fields: Fields) returns (ok: bool)
      requires Valid() && Held(store, Link(set_), Obj(fields)) && container != "podSpec"
      modifies this
      ensures Valid() && Within(old(store), store, Foot(old(store), Link(set_), Obj(fields)))
      ensures ok <==> PreparedSet(fields, container).Some?
      ensures ok ==> Rewrote(old(store), store, set_, fields, PreparedSet(fields, container).value)
    {
      ghost var s0 := store;
      ok := PrepareField(set_, container, fields);
      if !ok { return; }
      ghost var one, s1 := fields[container := Obj(ObjectField(fields, container).value)], store;
      ok := PrepareField(set_, "podSpec", one);
      WithinAgain(s0, s1, store, set_, fields, one);
      if !ok { return; }
      RewroteAgain(s0, s1, store, set_, fields, one, one["podSpec" := Obj(ObjectField(one, "podSpec").value)]);
    }

    /** Both lists of a prepared set. */
    method AttachPrepared(set_: Ref, container: string, home: Volume, data: Volume, ghost fields: Fields)
      returns (ok: bool)
      requires Valid() && Held(store, Link(set_), Obj(fields)) && Prepared(fields, container)
      modifies this
      ensures Valid() && Within(old(store), store, Foot(old(store), Link(set_), Obj(fields)))
      ensures ok <==> AttachedSet(fields, container, home, data).Some?
      ensures ok ==> Rewrote(old(store), store, set_, fields, AttachedSet(fields, container, home, data).value)
    {
      ghost var s0 := store;
      ok := AttachThrough(set_, container, true, home, data, fields);
      if !ok { return; }
      ghost var one := fields[container := Obj(Attached(fields[container].fields, true, home, data).value)];
      ghost var s1 := store;
      ok := AttachThrough(set_, "podSpec", false, home, data, one);
      WithinAgain(s0, s1, store, set_, fields, one);
      if !ok { return; }
      RewroteAgain(s0, s1, store, set_, fields, one,
                   one["podSpec" := Obj(Attached(fields["podSpec"].fields, false, home, data).value)]);
    }

    /** One set: its two objects, created where they are missing, and then both lists. */
    method AttachSetTo(set_: Ref, container: string, home: Volume, data: Volume, ghost fields: Fields)
      returns (ok: bool)
      requires Valid() && Held(store, Link(set_), Obj(fields)) && container != "podSpec"
      modifies this
      ensures Valid() && Within(old(store), store, Foot(old(store), Link(set_), Obj(fields)))
      ensures ok <==> AttachSet(Obj(fields), container, home, data).Some?
      ensures ok ==>
        Rewrote(old(store), store, set_, fields, AttachSet(Obj(fields), container, home, data).value.fields)
    {
      ghost var s0 := store;
      AttachSetIs(fields, container, home, data);
      ok := PrepareSet(set_, container, fields);
      if !ok { return; }
      ghost var one, s1 := PreparedSet(fields, container).value, store;
      ok := AttachPrepared(set_, container, home, data, one);
      WithinAgain(s0, s1, store, set_, fields, one);
      if !ok { return; }
      RewroteAgain(s0, s1, store, set_, fields, one, AttachedSet(one, container, home, data).value);
    }

    /** One set of a section, in place. */
    method AttachNamed(sets: Ref, name: string, container: string, home: Volume, data: Volume, ghost fields: Fields)
      returns (ok: bool)
      requires Valid() && Held(store, Link(sets), Obj(fields)) && name in fields && container != "podSpec"
      modifies this
      ensures Valid() && Within(old(store), store, Foot(old(store), Link(sets), Obj(fields)))
      ensures ok <==> AttachSet(fields[name], container, home, data).Some?
      ensures ok ==> Rewrote(old(store), store, sets, fields,
                             fields[name := AttachSet(fields[name], container, home, data).value])
    {
      ghost var before := store;
      FieldShape(store, sets, fields, name);
      if !store[sets][name].Link? { return false; }
      var set_ := store[sets][name].ref;
      ok := AttachSetTo(set_, container, home, data, fields[name].fields);
      assert Foot(before, before[sets][name], fields[name]) <= Foot(before, Link(sets), Obj(fields));
      if ok {
        ChildChangesAt(before, store, sets, fields, name, set_);
        FieldUpdated(before, store, sets, fields, name, AttachSet(fields[name], container, home, data).value);
      }
    }

    /** Every set of a section; the order does not matter. */
    method AttachAll(sets: Ref, container: string, home: Volume, data: Volume, ghost fields: Fields) returns (ok: bool)
      requires Valid() && Held(store, Link(sets), Obj(fields)) && container != "podSpec"
      modifies this
      ensures Valid() && Within(old(store), store, Foot(old(store), Link(sets), Obj(fields)))
      ensures ok <==> AllAttach(fields, container, home, data)
      ensures ok ==> Rewrote(old(store), store, sets, fields, AttachEach(fields, container, home, data))
    {
      ghost var before, now := store, fields;
      var todo := store[sets].Keys;
      while todo != {}
        invariant Valid() && Rewrote(before, store, sets, fields, now)
        invariant AttachedBut(fields, now, todo, container, home, data)
      {
        var n :| n in todo;
        ghost var s := store;
        ok := AttachNamed(sets, n, container, home, data, now);
        WithinAgain(before, s, store, sets, fields, now);
        if !ok { return; }
        ghost var next := now[n := AttachSet(now[n], container, home, data).value];
        RewroteAgain(before, s, store, sets, fields, now, next);
        OneMoreAttached(fields, now, todo, container, home, data, n);
        now := next;
        todo := todo - {n};
      }
      AllAreAttached(fields, now, container, home, data);
      ok := true;
    }

    /** One section of the tree; a missing or null one has no sets. */
    method AttachSectionTo(root: Ref, key: string, container: string, home: Volume, data: Volume, ghost values: Fields)
      returns (ok: bool)
      requires Valid() && Held(store, Link(root), Obj(values)) && container != "podSpec"
      modifies this
      ensures Valid() && Within(old(store), store, Foot(old(store), Link(root), Obj(values)))
      ensures ok <==> AttachSets(values, key, container, home, data).Some?
      ensures ok ==> Rewrote(old(store), store, root, values, AttachSets(values, key, container, home, data).value)
    {
      ghost var before := store;
      FieldShape(store, root, values, key);
      if key !in store[root] || store[root][key] == Atom(Null) { return true; }
      if !store[root][key].Link? { return false; }
      var sets := store[root][key].ref;
      ok := AttachAll(sets, container, home, data, values[key].fields);
      assert Foot(before, before[root][key], values[key]) <= Foot(before, Link(root), Obj(values));
      if ok {
        ChildChangesAt(before, store, root, values, key, sets);
        FieldUpdated(before, store, root, values, key, Obj(AttachEach(values[key].fields, container, home, data)));
      }
    }

    /** A string field is written in place. */
    method SetString(r: Ref, key: string, text: string, ghost fields: Fields)
      requires Valid() && Held(store, Link(r), Obj(fields))
      modifies this
      ensures Valid() && Rewrote(old(store), store, r, fields, fields[key := Str(text)])
    {
      ghost var before := store;
      store := store[r := store[r][key := Atom(Str(text))]];
      FieldUpdated(before, store, r, fields, key, Str(text));
    }

    /** The three trimmed strings are written back. */
    method Normalize(config: Ref, name: string, class_: string, size: string, ghost fields: Fields)
      requires Valid() && Held(store, Link(config), Obj(fields))
      modifies this
      ensures Valid() && Rewrote(old(store), store, config, fields, Normalized(fields, name, class_, size))
    {
      ghost var s0 := store;
      SetString(config, "name", name, fields);
      ghost var one, s1 := fields["name" := Str(name)], store;
      SetString(config, "storageClassName", class_, one);
      ghost var two, s2 := one["storageClassName" := Str(class_)], store;
      RewroteAgain(s0, s1, s2, config, fields, one, two);
      SetString(config, "size", size, two);
      RewroteAgain(s0, s2, store, config, fields, two, two["size" := Str(size)]);
    }

    /** `parseSlinkySharedVolume`: checks one volume and normalises it in place. */
    method ParseVolumeIn(x: Syntax, storage: Ref, key: string, ghost fields: Fields) returns (claim: Option<string>)
      requires Valid() && Held(store, Link(storage), Obj(fields))
      modifies this
      ensures Valid() && Within(old(store), store, Foot(old(store), Link(storage), Obj(fields)))
      ensures claim.Some? <==> ParseVolume(x, fields, key).Some?
      ensures claim.Some? ==>
        && claim.value == ParseVolume(x, fields, key).value.1
        && Rewrote(old(store), store, storage, fields, ParseVolume(x, fields, key).value.0)
    {
      ghost var before := store;
      FieldShape(store, storage, fields, key);
      if key !in store[storage] || !store[storage][key].Link? { return None; }
      var config := store[storage][key].ref;
      ghost var sub := fields[key].fields;
      var name := RequiredStringOf(x, config, "name", sub);
      var class_ := RequiredStringOf(x, config, "storageClassName", sub);
      var size := RequiredStringOf(x, config, "size", sub);
      if name.None? || !x.dnsName(name.value) { return None; }
      if class_.None? || !x.dnsName(class_.value) { return None; }
      if size.None? || !x.positiveQuantity(size.value) { return None; }
      Normalize(config, name.value, class_.value, size.value, sub);
      ChildChangesAt(before, store, storage, fields, key, config);
      FieldUpdated(before, store, storage, fields, key, Obj(Normalized(sub, name.value, class_.value, size.value)));
      return Some(name.value);
    }

    /** `requiredString` */
    method RequiredStringOf(x: Syntax, config: Ref, key: string, ghost fields: Fields) returns (text: Option<string>)
      requires Reads(store, Link(config), Obj(fields))
      ensures text == RequiredString(x, fields, key)
    {
      FieldShape(store, config, fields, key);
      if key !in store[config] || !store[config][key].Atom? || !store[config][key].value.Str? { return None; }
      var trimmed := Trim(x.space, store[config][key].value.s);
      return if trimmed == "" then None else Some(trimmed);
    }

    /** The checks before anything is copied: an error, nothing to do, or shared storage is wanted. */
    method StorageWanted(root: Ref, supported: bool, ghost values: Fields) returns (wanted: Option<bool>)
      requires Reads(store, Link(root), Obj(values))
      ensures wanted == Wanted(values, supported)
    {
      FieldShape(store, root, values, "storage");
      if "storage" !in store[root] { return Some(false); }
      if !store[root]["storage"].Link? { return None; }
      var storage := store[root]["storage"].ref;
      FieldShape(store, storage, values["storage"].fields, "enabled");
      assert store[storage].Keys == values["storage"].fields.Keys;
      if !(store[storage].Keys <= {"enabled", "home", "data"}) { return None; }
      if "enabled" !in store[storage] { return Some(false); }
      if !store[storage]["enabled"].Atom? || !store[storage]["enabled"].value.Bool? { return None; }
      if !store[storage]["enabled"].value.b { return Some(false); }
      return if supported then Some(true) else None;
    }

    /** Both volumes of the storage section, checked and normalised in place. */
    method ParseVolumesIn(x: Syntax, storage: Ref, ghost fields: Fields) returns (volumes: Option<(Volume, Volume)>)
      requires Valid() && Held(store, Link(storage), Obj(fields))
      modifies this
      ensures Valid() && Within(old(store), store, Foot(old(store), Link(storage), Obj(fields)))
      ensures volumes.Some? <==> ParseVolumes(x, fields).Some?
      ensures volumes.Some? ==>
        && volumes.value == (ParseVolumes(x, fields).value.1, ParseVolumes(x, fields).value.2)
        && Rewrote(old(store), store, storage, fields, ParseVolumes(x, fields).value.0)
    {
      ghost var s0 := store;
      var home := ParseVolumeIn(x, storage, "home", fields);
      if home.None? { return None; }
      ghost var one, s1 := ParseVolume(x, fields, "home").value.0, store;
      var data := ParseVolumeIn(x, storage, "data", one);
      WithinAgain(s0, s1, store, storage, fields, one);
      if data.None? { return None; }
      RewroteAgain(s0, s1, store, storage, fields, one, ParseVolume(x, one, "data").value.0);
      if home.value == data.value { return None; }
      return Some((Volume(home.value, "shared-home", "/home"), Volume(data.value, "shared-data", "/scratch/fsw")));
    }

    /** The storage section of the tree, through the object that holds it. */
    method ParseStorageIn(x: Syntax, root: Ref, ghost values: Fields) returns (volumes: Option<(Volume, Volume)>)
      requires Valid() && Held(store, Link(root), Obj(values)) && "storage" in values && values["storage"].Obj?
      modifies this
      ensures Valid() && Within(old(store), store, Foot(old(store), Link(root), Obj(values)))
      ensures volumes.Some? <==> ParseVolumes(x, values["storage"].fields).Some?
      ensures volumes.Some? ==>
        && var parsed := ParseVolumes(x, values["storage"].fields).value;
           volumes.value == (parsed.1, parsed.2)
           && Rewrote(old(store), store, root, values, values["storage" := Obj(parsed.0)])
    {
      ghost var before := store;
      FieldShape(store, root, values, "storage");
      var storage := store[root]["storage"].ref;
      volumes := ParseVolumesIn(x, storage, values["storage"].fields);
      assert Foot(before, before[root]["storage"], values["storage"]) <= Foot(before, Link(root), Obj(values));
      if volumes.Some? {
        ChildChangesAt(before, store, root, values, "storage", storage);
        FieldUpdated(before, store, root, values, "storage", Obj(ParseVolumes(x, values["storage"].fields).value.0));
      }
    }

    /** Everything done to the copy `c`: the section is normalised, then both kinds of sets are attached. */
    method MaterializeCopy(x: Syntax, c: Ref, ghost values: Fields) returns (ok: bool)
      requires Valid() && Held(store, Link(c), Obj(values)) && "storage" in values && values["storage"].Obj?
      modifies this
      ensures Valid() && Within(old(store), store, Foot(old(store), Link(c), Obj(values)))
      ensures ok <==> Rewritten(x, values).Some?
      ensures ok ==> Rewrote(old(store), store, c, values, Rewritten(x, values).value)
    {
      ghost var s0 := store;
      var volumes := ParseStorageIn(x, c, values);
      if volumes.None? { return false; }
      var (home, data) := volumes.value;
      ghost var zero, s1 := values["storage" := Obj(ParseVolumes(x, values["storage"].fields).value.0)], store;
      ok := AttachSectionTo(c, "loginsets", "login", home, data, zero);
      WithinAgain(s0, s1, store, c, values, zero);
      if !ok { return; }
      ghost var one, s2 := AttachSets(zero, "loginsets", "login", home, data).value, store;
      RewroteAgain(s0, s1, s2, c, values, zero, one);
      ok := AttachSectionTo(c, "nodesets", "slurmd", home, data, one);
      WithinAgain(s0, s2, store, c, values, one);
      if !ok { return; }
      RewroteAgain(s0, s2, store, c, values, one, AttachSets(one, "nodesets", "slurmd", home, data).value);
    }

    /** `DeepCopyMap` */
    method DeepCopyMap(r: Ref, ghost fields: Fields) returns (c: Ref)
      requires Valid() && Reads(store, Link(r), Obj(fields))
      modifies this
      ensures Valid() && Within(old(store), store, {})
      ensures Held(store, Link(c), Obj(fields)) && Foot(store, Link(c), Obj(fields)) !! old(store).Keys
    {
      var copy := DeepCopy(Link(r), Obj(fields));
      c := copy.ref;
    }

    /** The caller's map is cleared and filled with the fields of the copy. */
    method Refill(root: Ref, c: Ref, ghost before: Store, ghost fields: Fields)
      requires Valid() && Within(before, store, {}) && root in before
      requires Held(store, Link(c), Obj(fields)) && Foot(store, Link(c), Obj(fields)) !! before.Keys
      modifies this
      ensures Valid() && Within(before, store, {root}) && Reads(store, Link(root), Obj(fields))
      ensures Foot(store, Link(root), Obj(fields)) <= {root} + (store.Keys - before.Keys)
    {
      Refilled(before, store, root, c, fields);
      store := store[root := store[c]];
    }

    /** Copy deeply, rewrite the copy, and on success clear and refill the caller's map. */
    method RewriteThroughCopy(x: Syntax, root: Ref, ghost values: Fields) returns (ok: bool)
      requires Valid() && Reads(store, Link(root), Obj(values)) && "storage" in values && values["storage"].Obj?
      modifies this
      ensures Valid() && (ok <==> Rewritten(x, values).Some?)
      ensures Within(old(store), store, if ok then {root} else {})
      ensures ok ==>
        && Reads(store, Link(root), Obj(Rewritten(x, values).value))
        && Foot(store, Link(root), Obj(Rewritten(x, values).value)) <= {root} + (store.Keys - old(store).Keys)
    {
      ghost var before := store;
      var c := DeepCopyMap(root, values);
      ghost var s1 := store;
      ok := MaterializeCopy(x, c, values);
      CallersMapsKept(before, s1, store, Foot(s1, Link(c), Obj(values)));
      if ok {
        ghost var after := Rewritten(x, values).value;
        CopyStaysApart(before, s1, store, c, values, after);
        Refill(root, c, before, after);
      }
    }

    /**
     `materializeSlinkySharedStorage` on the caller's map `root`. An error changes no map that was there.
     On success only `root` itself was changed, it reads as the rewritten tree, and everything below it is new.
     */
    method Materialize(x: Syntax, root: Ref, supported: bool, ghost values: Fields) returns (ok: bool)
      requires Valid() && Reads(store, Link(root), Obj(values))
      modifies this
      ensures Valid() && (ok <==> !Materialized(x, values, supported).Invalid?)
      ensures forall q :: q in old(store) && q != root ==> q in store && store[q] == old(store)[q]
      ensures !Materialized(x, values, supported).Updated? && root in old(store) ==>
        root in store && store[root] == old(store)[root]
      ensures !Materialized(x, values, supported).Updated? ==>
        Within(old(store), store, {}) && Reads(store, Link(root), Obj(values))
      ensures Materialized(x, values, supported).Updated? ==>
        && Within(old(store), store, {root})
        && Reads(store, Link(root), Obj(Materialized(x, values, supported).values))
        && Foot(store, Link(root), Obj(Materialized(x, values, supported).values))
           <= {root} + (store.Keys - old(store).Keys)
    {
      MaterializedIs(x, values, supported);
      var wanted := StorageWanted(root, supported, values);
      if wanted != Some(true) { return wanted.Some?; }
      ok := RewriteThroughCopy(x, root, values);
      if !ok {
        FootIsStored(old(store), Link(root), Obj(values));
        Frame(old(store), store, Link(root), Obj(values));
      }
    }
  }

  function Wanted(values: Fields, supported: bool): Option<bool> {
    if "storage" !in values then Some(false)
    else if !values["storage"].Obj? || !(values["storage"].fields.Keys <= {"enabled", "home", "data"}) then None
    else if "enabled" !in values["storage"].fields then Some(false)
    else if !values["storage"].fields["enabled"].Bool? then None
    else if !values["storage"].fields["enabled"].b then Some(false)
    else if supported then Some(true)
    else None
  }

  /** The tree with its storage section normalised and both kinds of sets attached. */
  function Rewritten(x: Syntax, values: Fields): Option<Fields>
    requires "storage" in values && values["storage"].Obj?
  {
    match ParseVolumes(x, values["storage"].fields)
    case None => None
    case Some((storage, home, data)) =>
      match AttachSets(values["storage" := Obj(storage)], "loginsets", "login", home, data)
      case None => None
      case Some(one) => AttachSets(one, "nodesets", "slurmd", home, data)
  }

  lemma MaterializedIs(x: Syntax, values: Fields, supported: bool)
    ensures Wanted(values, supported) == Some(true) ==> "storage" in values && values["storage"].Obj?
    ensures Materialized(x, values, supported) ==
      if Wanted(values, supported) == None then Invalid
      else if Wanted(values, supported) == Some(false) then Unchanged
      else match Rewritten(x, values) case None => Invalid case Some(after) => Updated(after)
  {
  }

  /** What happens to the copy does not happen to the caller's maps. */
  lemma CallersMapsKept(before: Store, s: Store, t: Store, foot: set<Ref>)
    requires Within(before, s, {}) && Within(s, t, foot) && foot !! before.Keys
    ensures Within(before, t, {})
  {
  }

  lemma CopyStaysApart(before: Store, s: Store, t: Store, c: Ref, values: Fields, after: Fields)
    requires Reads(s, Link(c), Obj(values)) && Foot(s, Link(c), Obj(values)) !! before.Keys
    requires Within(before, s, {}) && Rewrote(s, t, c, values, after)
    ensures Held(t, Link(c), Obj(after)) && Foot(t, Link(c), Obj(after)) !! before.Keys
  {
    assert before.Keys <= s.Keys;
  }

  /** The caller's map takes over the fields of the copy. */
  lemma Refilled(before: Store, t: Store, root: Ref, c: Ref, fields: Fields)
    requires Within(before, t, {}) && root in before
    requires Held(t, Link(c), Obj(fields)) && Foot(t, Link(c), Obj(fields)) !! before.Keys
    ensures var u := t[root := t[c]];
      && Within(before, u, {root}) && Reads(u, Link(root), Obj(fields))
      && Foot(u, Link(root), Obj(fields)) <= {root} + (u.Keys - before.Keys)
  {
    var u := t[root := t[c]];
    FootIsStored(t, Link(c), Obj(fields));
    forall k | k in fields
      ensures Reads(u, t[c][k], fields[k]) && Foot(u, t[c][k], fields[k]) == Foot(t, t[c][k], fields[k])
    {
      Frame(t, u, t[c][k], fields[k]);
    }
    assert Reads(u, Link(root), Obj(fields));
  }

  function Normalized(fields: Fields, name: string, class_: string, size: string): Fields {
    fields["name" := Str(name)]["storageClassName" := Str(class_)]["size" := Str(size)]
  }

  /** All sets but those in `todo` have been attached. */
  ghost predicate AttachedBut(sets: Fields, now: Fields, todo: set<string>, container: string, home: Volume,
                              data: Volume) {
    && now.Keys == sets.Keys && todo <= sets.Keys
    && (forall n :: n in todo ==> now[n] == sets[n])
    && (forall n :: n in sets && n !in todo ==> AttachSet(sets[n], container, home, data) == Some(now[n]))
  }

  lemma OneMoreAttached(sets: Fields, now: Fields, todo: set<string>, container: string, home: Volume, data: Volume,
                        n: string)
    requires AttachedBut(sets, now, todo, container, home, data)
    requires n in todo && AttachSet(now[n], container, home, data).Some?
    ensures AttachedBut(sets, now[n := AttachSet(now[n], container, home, data).value], todo - {n}, container, home,
                        data)
  {
  }

  lemma AllAreAttached(sets: Fields, now: Fields, container: string, home: Volume, data: Volume)
    requires AttachedBut(sets, now, {}, container, home, data)
    ensures AllAttach(sets, container, home, data) && now == AttachEach(sets, container, home, data)
  {
    assert AllAttach(sets, container, home, data);
    var each := AttachEach(sets, container, home, data);
    forall n | n in sets
      ensures each[n] == now[n]
    {
      assert AttachSet(sets[n], container, home, data) == Some(now[n]);
    }
  }

  function PreparedSet(fields: Fields, container: string): Option<Fields> {
    match ObjectField(fields, container)
    case None => None
    case Some(c) =>
      var one := fields[container := Obj(c)];
      match ObjectField(one, "podSpec")
      case None => None
      case Some(p) => Some(one["podSpec" := Obj(p)])
  }

  predicate Prepared(fields: Fields, container: string) {
    && container != "podSpec" && container in fields && fields[container].Obj?
    && "podSpec" in fields && fields["podSpec"].Obj?
  }

  function AttachedSet(fields: Fields, container: string, home: Volume, data: Volume): Option<Fields>
    requires Prepared(fields, container)
  {
    match (Attached(fields[container].fields, true, home, data), Attached(fields["podSpec"].fields, false, home, data))
    case (Some(c), Some(p)) => Some(fields[container := Obj(c)]["podSpec" := Obj(p)])
    case _ => None
  }

  /** First creating the objects and then filling the lists is what `AttachSet` describes. */
  lemma AttachSetIs(fields: Fields, container: string, home: Volume, data: Volume)
    requires container != "podSpec"
    ensures PreparedSet(fields, container).Some? ==> Prepared(PreparedSet(fields, container).value, container)
    ensures AttachSet(Obj(fields), container, home, data) ==
      match PreparedSet(fields, container)
      case None => None
      case Some(one) =>
        match AttachedSet(one, container, home, data)
        case None => None
        case Some(after) => Some(Obj(after))
  {
    if PreparedSet(fields, container).Some? {
      var one := PreparedSet(fields, container).value;
      if AttachedSet(one, container, home, data).Some? {
        var c := Obj(Attached(one[container].fields, true, home, data).value);
        var p := Obj(Attached(one["podSpec"].fields, false, home, data).value);
        assert one[container := c]["podSpec" := p] == fields[container := c]["podSpec" := p];
      }
    }
  }

  function AppendedBoth(entries: seq<Value>, mounts: bool, home: Volume, data: Volume): Option<seq<Value>> {
    match AppendFrom(entries, Entry(mounts, home), 0)
    case None => None
    case Some(one) => AppendFrom(one, Entry(mounts, data), 0)
  }

  lemma AttachedIs(fields: Fields, mounts: bool, home: Volume, data: Volume)
    ensures Attached(fields, mounts, home, data) ==
      match NamedList(fields, TargetKey(mounts))
      case None => None
      case Some(entries) =>
        match AppendedBoth(entries, mounts, home, data)
        case None => None
        case Some(both) => Some(fields[TargetKey(mounts) := List(both)])
  {
  }

  function TargetKey(mounts: bool): string {
    if mounts then "volumeMounts" else "volumes"
  }

  function Attached(fields: Fields, mounts: bool, home: Volume, data: Volume): Option<Fields> {
    AttachBoth(fields, TargetKey(mounts), Entry(mounts, home), Entry(mounts, data))
  }

  function Entry(mounts: bool, v: Volume): Value {
    if mounts then MountEntry(v) else VolumeEntry(v)
  }
}
