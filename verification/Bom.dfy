/** Building a CycloneDX document with unique references (pkg/bom/bom.go, pkg/bom/variants.go). */
module Bom {
  import opened Ordering
  import opened Prelude
  import opened Splitting
  import ImageReference

  const DEFAULT_ROOT := "aicr"

  datatype Survey = Survey(name: string, displayName: string, version: string, images: seq<string>)

  datatype Variant = Variant(name: string, version: string, images: seq<string>)

  datatype Component =
    | Application(bomRef: string, name: string, version: string, description: string)
    | Container(bomRef: string, name: string, version: string, purl: string)

  datatype Dependency = Dependency(ref: string, targets: seq<string>)

  datatype Document = Document(root: string, components: seq<Component>, dependencies: seq<Dependency>)

  /* ---- What a document is built from ---- */

  /** An application with the images it deploys: a surveyed component or one of its version variants. */
  datatype Entry = Entry(component: Component, images: seq<string>)

  function OfSurvey(root: string, r: Survey): Entry {
    Entry(Application(root + "/" + r.name, r.name, r.version, r.displayName), r.images)
  }

  function OfVariant(root: string, v: Variant): Entry {
    Entry(Application(root + "/" + v.name + "@" + v.version, v.name, v.version, ""), v.images)
  }

  function Map<A, B>(f: A -> B, s: seq<A>): (r: seq<B>)
    ensures |r| == |s| && forall i :: 0 <= i < |s| ==> r[i] == f(s[i])
  {
    if s == [] then [] else Map(f, s[..|s| - 1]) + [f(s[|s| - 1])]
  }

  function Entries(root: string, surveys: seq<Survey>, variants: seq<Variant>): seq<Entry> {
    Map(r => OfSurvey(root, r), surveys) + Map(v => OfVariant(root, v), variants)
  }

  function Refs(entries: seq<Entry>): seq<string> {
    Map((e: Entry) => e.component.bomRef, entries)
  }

  function ImageRef(image: string): string {
    "img:" + image
  }

  /**
   The root and the applications have different references, and no image shares one with them. Images may
   repeat, within an application and across applications.
   */
  ghost predicate NoClash(root: string, entries: seq<Entry>) {
    Apart([root] + Refs(entries), ImagesOf(entries))
  }

  /* ---- The document ---- */

  function ImageComponent(image: string): Component {
    var ref := ImageReference.Parsed(image);
    Container(ImageRef(image), ref.registry + "/" + ref.repository, ImageReference.Version(ref),
              ImageReference.PURL(ref))
  }

  function ImageRefs(images: seq<string>): seq<string> {
    Map(ImageRef, images)
  }

  /** What is rendered for the items whose key occurs for the first time. */
  function Fresh<T, R, C>(key: T -> R, render: T -> C, items: seq<T>, seen: set<R>): seq<C> {
    if items == [] then []
    else
      var front, last := items[..|items| - 1], items[|items| - 1];
      Fresh(key, render, front, seen) + if key(last) in seen || key(last) in Map(key, front) then [] else [render(last)]
  }

  function Set<R>(s: seq<R>): set<R> {
    set x | x in s
  }

  function ImagesOf(entries: seq<Entry>): set<string> {
    if entries == [] then {}
    else ImagesOf(entries[..|entries| - 1]) + Set(ImageRefs(entries[|entries| - 1].images))
  }

  function FreshImages(images: seq<string>, seen: set<string>): seq<Component> {
    Fresh(ImageRef, ImageComponent, images, seen)
  }

  function Emitted(entries: seq<Entry>): seq<Component> {
    if entries == [] then []
    else
      var front, last := entries[..|entries| - 1], entries[|entries| - 1];
      Emitted(front) + [last.component] + FreshImages(last.images, ImagesOf(front))
  }

  function RefList(refs: seq<string>): seq<string> {
    Sort(Less, refs)
  }

  function Edge(e: Entry): seq<Dependency> {
    if e.images == [] then [] else [Dependency(e.component.bomRef, RefList(ImageRefs(e.images)))]
  }

  function Edges(entries: seq<Entry>): seq<Dependency> {
    if entries == [] then [] else Edges(entries[..|entries| - 1]) + Edge(entries[|entries| - 1])
  }

  function Built(root: string, entries: seq<Entry>): Document {
    Document(root, Emitted(entries),
             (if entries == [] then [] else [Dependency(root, RefList(Refs(entries)))]) + Edges(entries))
  }

  /* ---- Claiming references ---- */

  lemma FreshStep<T, R, C>(key: T -> R, render: T -> C, items: seq<T>, i: nat, seen: set<R>, comps: seq<C>)
    requires i < |items|
    ensures key(items[i]) in Map(key, items)
    ensures Map(key, items[..i + 1]) == Map(key, items[..i]) + [key(items[i])]
    ensures comps + Fresh(key, render, items[..i + 1], seen) ==
              if key(items[i]) in seen || key(items[i]) in Map(key, items[..i])
              then comps + Fresh(key, render, items[..i], seen)
              else comps + Fresh(key, render, items[..i], seen) + [render(items[i])]
  {
    assert items[..i + 1][..i] == items[..i];
    assert Map(key, items)[i] == key(items[i]);
    var front := Fresh(key, render, items[..i], seen);
    assert comps + front + [render(items[i])] == comps + (front + [render(items[i])]);
  }

  lemma SetStep<R>(before: set<R>, refs: seq<R>, ref: R, taken: set<R>)
    ensures before + Set(refs) + {ref} == before + Set(refs + [ref])
    ensures Free(refs + [ref], taken) <==> Free(refs, taken) && ref !in taken
    ensures ref in before + Set(refs) <==> ref in before || ref in refs
    ensures ref in before + Set(refs) ==> before + Set(refs) == before + Set(refs + [ref])
  {
    assert forall r :: r in refs + [ref] <==> r in refs || r == ref;
  }

  ghost predicate Free<R>(refs: seq<R>, taken: set<R>) {
    forall r :: r in refs ==> r !in taken
  }

  class RefClaims<R(==)> {
    const checked: bool
    var seen: set<R>
    var refs: map<R, bool>

    /** The references claimed for the root and, in checked mode, for applications. */
    ghost var applications: set<R>

    ghost predicate Valid()
      reads this
    {
      checked ==>
        && refs.Keys == applications + seen && applications !! seen
        && forall r :: r in refs ==> (refs[r] <==> r in seen)
    }

    constructor (rootRef: R, checked: bool)
      ensures Valid() && this.checked == checked && seen == {} && applications == {rootRef}
    {
      this.checked := checked;
      seen := {};
      refs := map[rootRef := false];
      applications := {rootRef};
    }

    /** `claimRef` */
    method ClaimRef(ref: R) returns (v: Verdict)
      requires Valid()
      modifies this`refs, this`applications
      ensures Valid()
      ensures v == if checked && (ref in old(applications) || ref in seen) then Fail(InvalidRequest) else Pass
      ensures applications == old(applications) + if checked && v.Pass? then {ref} else {}
    {
      if !checked { return Pass; }
      if ref in refs { return Fail(InvalidRequest); }
      refs := refs[ref := false];
      applications := applications + {ref};
      v := Pass;
    }

    /** `claimImage` */
    method ClaimImage(ref: R) returns (v: Verdict, isNew: bool)
      requires Valid()
      modifies this
      ensures Valid() && applications == old(applications)
      ensures v == if checked && ref !in old(seen) && ref in applications then Fail(InvalidRequest) else Pass
      ensures isNew <==> v.Pass? && ref !in old(seen)
      ensures seen == if v.Pass? then old(seen) + {ref} else old(seen)
    {
      if ref in seen { return Pass, false; }
      if checked {
        if ref in refs && !refs[ref] { return Fail(InvalidRequest), false; }
        refs := refs[ref := true];
      }
      seen := seen + {ref};
      return Pass, true;
    }

    /** The loop of `appendImageEntries`. */
    method ClaimImages<T, C>(key: T -> R, render: T -> C, comps: seq<C>, images: seq<T>)
      returns (v: Verdict, comps': seq<C>, imgRefs: seq<R>)
      requires Valid()
      modifies this
      ensures Valid() && applications == old(applications)
      ensures v == if checked && !Free(Map(key, images), applications - old(seen)) then Fail(InvalidRequest) else Pass
      ensures v.Pass? ==> seen == old(seen) + Set(imgRefs) && imgRefs == Map(key, images)
      ensures v.Pass? ==> comps' == comps + Fresh(key, render, images, old(seen))
    {
      ghost var before := seen;
      v, comps', imgRefs := Pass, comps, [];
      for i := 0 to |images|
        invariant Valid() && applications == old(applications) && v.Pass?
        invariant imgRefs == Map(key, images[..i]) && seen == before + Set(imgRefs)
        invariant comps' == comps + Fresh(key, render, images[..i], before)
        invariant checked ==> Free(imgRefs, applications - before)
      {
        var img := images[i];
        FreshStep(key, render, images, i, before, comps);
        SetStep(before, imgRefs, key(img), applications - before);
        var isNew;
        v, isNew := ClaimImage(key(img));
        if v.Fail? {
          assert key(img) in applications - before;
          return;
        }
        if isNew {
          comps' := comps' + [render(img)];
        }
        imgRefs := imgRefs + [key(img)];
      }
      assert images[..|images|] == images;
    }
  }

  /** `appendImageEntries` */
  method AppendImageEntries(claims: RefClaims<string>, comps: seq<Component>, deps: seq<Dependency>, e: Entry)
    returns (v: Verdict, comps': seq<Component>, deps': seq<Dependency>)
    requires claims.Valid()
    modifies claims
    ensures claims.Valid() && claims.applications == old(claims.applications)
    ensures v == if claims.checked && !Free(ImageRefs(e.images), claims.applications - old(claims.seen))
                 then Fail(InvalidRequest) else Pass
    ensures v.Pass? ==> comps' == comps + FreshImages(e.images, old(claims.seen)) && deps' == deps + Edge(e)
    ensures v.Pass? ==> claims.seen == old(claims.seen) + Set(ImageRefs(e.images))
  {
    var imgRefs;
    deps' := deps;
    v, comps', imgRefs := claims.ClaimImages(ImageRef, ImageComponent, comps, e.images);
    if v.Pass? && |imgRefs| > 0 {
      deps' := deps' + [Dependency(e.component.bomRef, RefList(imgRefs))];
    }
  }

  /** What has been claimed once the entries are in the document. */
  ghost predicate Covers(claims: RefClaims<string>, root: string, entries: seq<Entry>)
    reads claims
  {
    && claims.Valid() && claims.seen == ImagesOf(entries)
    && (claims.checked ==> claims.applications == Set([root] + Refs(entries)) && NoClash(root, entries))
  }

  /** One step of either loop of `buildBOMDoc`: the application, then its images. */
  method AppendEntry(claims: RefClaims<string>, root: string, ghost done: seq<Entry>, e: Entry,
                     children: seq<string>, comps: seq<Component>, deps: seq<Dependency>)
    returns (v: Verdict, children': seq<string>, comps': seq<Component>, deps': seq<Dependency>)
    requires Covers(claims, root, done)
    requires children == Refs(done) && comps == Emitted(done) && deps == Edges(done)
    modifies claims
    ensures v == if claims.checked && !NoClash(root, done + [e]) then Fail(InvalidRequest) else Pass
    ensures v.Pass? ==>
              && Covers(claims, root, done + [e]) && children' == Refs(done + [e])
              && comps' == Emitted(done + [e]) && deps' == Edges(done + [e])
  {
    children', comps', deps' := children, comps, deps;
    OneMore(done, e);
    if claims.checked { ClashWithOneMore(root, done, e); }
    v := claims.ClaimRef(e.component.bomRef);
    if v.Fail? { return; }
    children' := children' + [e.component.bomRef];
    comps' := comps' + [e.component];
    v, comps', deps' := AppendImageEntries(claims, comps', deps', e);
  }

  lemma OneMore(done: seq<Entry>, e: Entry)
    ensures Refs(done + [e]) == Refs(done) + [e.component.bomRef]
    ensures ImagesOf(done + [e]) == ImagesOf(done) + Set(ImageRefs(e.images))
    ensures Emitted(done + [e]) == Emitted(done) + [e.component] + FreshImages(e.images, ImagesOf(done))
    ensures Edges(done + [e]) == Edges(done) + Edge(e)
  {
    assert (done + [e])[..|done|] == done;
  }

  ghost predicate Apart<R>(applications: seq<R>, images: set<R>) {
    Distinct(applications) && forall r :: r in images ==> r !in applications
  }

  /** Neither the new application nor its images clash with what is there. */
  ghost predicate Joins<R>(applications: seq<R>, images: set<R>, x: R, more: set<R>) {
    && x !in applications && x !in images
    && forall r :: r in more ==> r in images || r !in applications + [x]
  }

  lemma ApartWithOneMore<R>(applications: seq<R>, images: set<R>, x: R, more: set<R>)
    requires Apart(applications, images)
    ensures Apart(applications + [x], images + more) <==> Joins(applications, images, x, more)
  {
    DistinctOneMore(applications, x);
    var longer := applications + [x];
    assert forall r :: r in longer <==> r in applications || r == x;
  }

  lemma ClashWithOneMore(root: string, done: seq<Entry>, e: Entry)
    requires NoClash(root, done)
    ensures NoClash(root, done + [e]) <==>
              Joins([root] + Refs(done), ImagesOf(done), e.component.bomRef, Set(ImageRefs(e.images)))
  {
    OneMore(done, e);
    Regroup([root], Refs(done), [e.component.bomRef]);
    ApartWithOneMore([root] + Refs(done), ImagesOf(done), e.component.bomRef, Set(ImageRefs(e.images)));
  }

  /* ---- The document builder ---- */

  predicate ByName(a: Survey, b: Survey) {
    Less(a.name, b.name)
  }

  predicate ByNameAndVersion(a: Variant, b: Variant) {
    if a.name != b.name then Less(a.name, b.name) else Less(a.version, b.version)
  }

  lemma SurveysAndVariantsAreOrdered()
    ensures WeakOrder(ByName) && WeakOrder(ByNameAndVersion)
  {
    StringsAreOrdered();
    forall a: Survey, b: Survey, c: Survey
      ensures WeakAt(ByName, a, b, c)
    {
      assert WeakAt(Less, a.name, b.name, c.name);
    }
    forall a: Variant, b: Variant, c: Variant
      ensures WeakAt(ByNameAndVersion, a, b, c)
    {
      assert WeakAt(Less, a.name, b.name, c.name) && WeakAt(Less, a.version, b.version, c.version);
      assert WeakAt(Less, a.name, b.name, a.name);
      assert Comparable(Less, a.name, b.name) && Comparable(Less, b.name, c.name);
    }
  }

  function Root(name: string): string {
    if name == "" then DEFAULT_ROOT else name
  }

  lemma NoClashInPrefix(root: string, front: seq<Entry>, back: seq<Entry>)
    requires NoClash(root, front + back)
    ensures NoClash(root, front)
    decreases |back|
  {
    if back == [] {
      assert front + back == front;
    } else {
      var init, e := back[..|back| - 1], back[|back| - 1];
      assert front + back == (front + init) + [e];
      NoClashWithoutLast(root, front + init, e);
      NoClashInPrefix(root, front, init);
    }
  }

  lemma NoClashWithoutLast(root: string, done: seq<Entry>, e: Entry)
    requires NoClash(root, done + [e])
    ensures NoClash(root, done)
  {
    OneMore(done, e);
    Regroup([root], Refs(done), [e.component.bomRef]);
    DistinctOneMore([root] + Refs(done), e.component.bomRef);
  }

  lemma AClashSpreads(root: string, now: seq<Entry>, batch: seq<Entry>, i: nat, all: seq<Entry>)
    requires i < |batch| && now + batch[i..] == all
    ensures now + [batch[i]] + batch[i + 1..] == all
    ensures NoClash(root, all) ==> NoClash(root, now + [batch[i]])
  {
    assert now + [batch[i]] + batch[i + 1..] == now + batch[i..];
    if NoClash(root, all) { NoClashInPrefix(root, now + [batch[i]], batch[i + 1..]); }
  }

  lemma AClashStays(root: string, front: seq<Entry>, back: seq<Entry>)
    ensures NoClash(root, front + back) ==> NoClash(root, front)
  {
    if NoClash(root, front + back) { NoClashInPrefix(root, front, back); }
  }

  /** Either loop of `buildBOMDoc`: it adds a batch of entries, or stops at the first clash. */
  method AppendBatch(claims: RefClaims<string>, root: string, ghost done: seq<Entry>, batch: seq<Entry>,
                     children: seq<string>, comps: seq<Component>, deps: seq<Dependency>)
    returns (v: Verdict, children': seq<string>, comps': seq<Component>, deps': seq<Dependency>)
    requires Covers(claims, root, done)
    requires children == Refs(done) && comps == Emitted(done) && deps == Edges(done)
    modifies claims
    ensures v == if claims.checked && !NoClash(root, done + batch) then Fail(InvalidRequest) else Pass
    ensures v.Pass? ==>
              && Covers(claims, root, done + batch) && children' == Refs(done + batch)
              && comps' == Emitted(done + batch) && deps' == Edges(done + batch)
  {
    v, children', comps', deps' := Pass, children, comps, deps;
    ghost var now := done;
    for i := 0 to |batch|
      invariant v.Pass? && Covers(claims, root, now) && now + batch[i..] == done + batch
      invariant children' == Refs(now) && comps' == Emitted(now) && deps' == Edges(now)
    {
      AClashSpreads(root, now, batch, i, done + batch);
      v, children', comps', deps' := AppendEntry(claims, root, now, batch[i], children', comps', deps');
      if v.Fail? { return; }
      now := now + [batch[i]];
    }
    assert now == done + batch;
  }

  /** A document for these inputs, in some order the unstable sorts may settle on. */
  ghost predicate BuiltFrom(doc: Document, name: string, results: seq<Survey>, variants: seq<Variant>) {
    exists surveys, pins ::
      && IsSorting(ByName, results, surveys) && IsSorting(ByNameAndVersion, variants, pins)
      && doc == Built(Root(name), Entries(Root(name), surveys, pins))
  }

  /** The inputs, in the order they were given, have references that do not clash. */
  ghost predicate InputsAreApart(name: string, results: seq<Survey>, variants: seq<Variant>) {
    NoClash(Root(name), Entries(Root(name), results, variants))
  }

  /** `buildBOMDoc` after the inputs have been sorted. */
  method BuildSorted(root: string, surveys: seq<Survey>, pins: seq<Variant>, checked: bool)
    returns (v: Verdict, doc: Option<Document>)
    ensures v == if checked && !NoClash(root, Entries(root, surveys, pins)) then Fail(InvalidRequest) else Pass
    ensures doc == if v.Pass? then Some(Built(root, Entries(root, surveys, pins))) else None
  {
    var claims := new RefClaims(root, checked);
    var children, comps, deps := [], [], [];
    doc := None;
    var batch := Map(r => OfSurvey(root, r), surveys);
    assert [] + batch == batch;
    v, children, comps, deps := AppendBatch(claims, root, [], batch, children, comps, deps);
    var more := Map(v => OfVariant(root, v), pins);
    assert Entries(root, surveys, pins) == batch + more;
    AClashStays(root, batch, more);
    if v.Fail? { return; }
    v, children, comps, deps := AppendBatch(claims, root, batch, more, children, comps, deps);
    if v.Fail? { return; }
    if |children| > 0 {
      deps := [Dependency(root, RefList(children))] + deps;
    }
    doc := Some(Document(root, comps, deps));
  }

  /** `buildBOMDoc` */
  method BuildBOMDoc(name: string, results: seq<Survey>, variants: seq<Variant>, checked: bool)
    returns (v: Verdict, doc: Option<Document>)
    ensures v == if checked && !InputsAreApart(name, results, variants) then Fail(InvalidRequest) else Pass
    ensures doc.Some? <==> v.Pass?
    ensures doc.Some? ==> BuiltFrom(doc.value, name, results, variants)
  {
    var sorted, sortedVariants := SortedInputs(results, variants);
    InputOrderIsIrrelevant(Root(name), results, sorted, variants, sortedVariants);
    v, doc := BuildSorted(Root(name), sorted, sortedVariants, checked);
  }

  method SortedInputs(results: seq<Survey>, variants: seq<Variant>)
    returns (surveys: seq<Survey>, pins: seq<Variant>)
    ensures IsSorting(ByName, results, surveys) && IsSorting(ByNameAndVersion, variants, pins)
  {
    SurveysAndVariantsAreOrdered();
    SortSorts(ByName, results);
    SortSorts(ByNameAndVersion, variants);
    surveys, pins := Sort(ByName, results), Sort(ByNameAndVersion, variants);
  }

  /** `BuildBOM` */
  method BuildBOM(name: string, results: seq<Survey>) returns (doc: Document)
    ensures BuiltFrom(doc, name, results, [])
  {
    var v, built := BuildBOMDoc(name, results, [], false);
    doc := built.value;
  }

  /** `BuildBOMWithVariants` */
  method BuildBOMWithVariants(name: string, results: seq<Survey>, variants: seq<Variant>)
    returns (v: Verdict, doc: Option<Document>)
    ensures v == if InputsAreApart(name, results, variants) then Pass else Fail(InvalidRequest)
    ensures doc.Some? <==> v.Pass?
    ensures doc.Some? ==> BuiltFrom(doc.value, name, results, variants)
  {
    v, doc := BuildBOMDoc(name, results, variants, true);
  }

  /* ---- Whether references clash does not depend on the order of the inputs ---- */

  lemma MapOfJoin<A, B>(f: A -> B, s: seq<A>, t: seq<A>)
    ensures Map(f, s + t) == Map(f, s) + Map(f, t)
  {
  }

  lemma {:induction false} MapReordered<A, B>(f: A -> B, s: seq<A>, t: seq<A>)
    requires multiset(s) == multiset(t)
    ensures multiset(Map(f, s)) == multiset(Map(f, t))
    decreases |s|
  {
    SameElements(s, t);
    if s != [] {
      var front, last := s[..|s| - 1], s[|s| - 1];
      assert s == front + [last];
      var before, after := TakeOut(t, last);
      WithoutOne(front, last, before, after);
      MapReordered(f, front, before + after);
      MapOfJoin(f, before, after);
      MapOfJoin(f, before + [last], after);
      MapOfJoin(f, before, [last]);
      WithOne(Map(f, front), f(last), Map(f, before), Map(f, after));
    }
  }

  lemma TakeOut<T>(s: seq<T>, x: T) returns (before: seq<T>, after: seq<T>)
    requires x in s
    ensures s == before + [x] + after
  {
    var k :| 0 <= k < |s| && s[k] == x;
    before, after := s[..k], s[k + 1..];
  }

  lemma WithoutOne<T>(front: seq<T>, x: T, before: seq<T>, after: seq<T>)
    requires multiset(front + [x]) == multiset(before + [x] + after)
    ensures multiset(front) == multiset(before + after)
  {
    assert multiset(front) == multiset(front + [x]) - multiset{x};
    assert multiset(before + after) == multiset(before + [x] + after) - multiset{x};
  }

  lemma WithOne<T>(front: seq<T>, x: T, before: seq<T>, after: seq<T>)
    requires multiset(front) == multiset(before + after)
    ensures multiset(front + [x]) == multiset(before + [x] + after)
  {
  }

  lemma {:induction false} ImagesOfAre(entries: seq<Entry>, r: string)
    ensures r in ImagesOf(entries) <==> exists e :: e in entries && r in ImageRefs(e.images)
  {
    if entries != [] {
      var front, last := entries[..|entries| - 1], entries[|entries| - 1];
      assert entries == front + [last];
      ImagesOfAre(front, r);
    }
  }

  lemma NoClashReordered(root: string, a: seq<Entry>, b: seq<Entry>)
    requires multiset(a) == multiset(b) && NoClash(root, a)
    ensures NoClash(root, b)
  {
    SameElements(a, b);
    MapReordered((e: Entry) => e.component.bomRef, a, b);
    RootInFront(root, Refs(a), Refs(b));
    forall r | r in ImagesOf(b)
      ensures r !in [root] + Refs(b)
    {
      ImagesOfAre(b, r);
      ImagesOfAre(a, r);
    }
  }

  lemma RootInFront(root: string, a: seq<string>, b: seq<string>)
    requires multiset(a) == multiset(b)
    ensures forall r :: r in [root] + a <==> r in [root] + b
    ensures Distinct([root] + a) ==> Distinct([root] + b)
  {
    SameElements(a, b);
    assert multiset([root] + a) == multiset([root] + b);
    if Distinct([root] + a) { DistinctReordered([root] + a, [root] + b); }
  }

  lemma InputOrderIsIrrelevant(root: string, results: seq<Survey>, surveys: seq<Survey>,
                               variants: seq<Variant>, pins: seq<Variant>)
    requires multiset(results) == multiset(surveys) && multiset(variants) == multiset(pins)
    ensures NoClash(root, Entries(root, surveys, pins)) <==> NoClash(root, Entries(root, results, variants))
  {
    var a, b := Entries(root, surveys, pins), Entries(root, results, variants);
    MapReordered(r => OfSurvey(root, r), results, surveys);
    MapReordered(v => OfVariant(root, v), variants, pins);
    if NoClash(root, a) { NoClashReordered(root, a, b); }
    if NoClash(root, b) { NoClashReordered(root, b, a); }
  }

  /* ---- What a document promises ---- */

  function BomRefs(components: seq<Component>): seq<string> {
    Map((c: Component) => c.bomRef, components)
  }

  lemma DistinctJoin<T>(a: seq<T>, b: seq<T>)
    requires Distinct(a) && Distinct(b) && forall x :: x in b ==> x !in a
    ensures Distinct(a + b)
  {
    assert forall i :: 0 <= i < |a| ==> a[i] in a;
    assert forall i :: 0 <= i < |b| ==> b[i] in b;
  }

  lemma {:induction false} FreshKeys<T, R(!new), C>(key: T -> R, render: T -> C, ref: C -> R, items: seq<T>,
                                                    seen: set<R>)
    requires forall i :: 0 <= i < |items| ==> ref(render(items[i])) == key(items[i])
    ensures forall r :: r in Map(ref, Fresh(key, render, items, seen)) <==> r in Map(key, items) && r !in seen
    ensures Distinct(Map(ref, Fresh(key, render, items, seen)))
  {
    if items != [] {
      var front, last := items[..|items| - 1], items[|items| - 1];
      FreshKeys(key, render, ref, front, seen);
      var before := Fresh(key, render, front, seen);
      assert Map(key, items) == Map(key, front) + [key(last)];
      if key(last) in seen || key(last) in Map(key, front) {
        assert Fresh(key, render, items, seen) == before;
      } else {
        MapOfJoin(ref, before, [render(last)]);
        DistinctOneMore(Map(ref, before), key(last));
        assert Map(ref, Fresh(key, render, items, seen)) == Map(ref, before) + [key(last)];
      }
    }
  }

  lemma FreshImageRefs(images: seq<string>, seen: set<string>)
    ensures forall r :: r in BomRefs(FreshImages(images, seen)) <==> r in ImageRefs(images) && r !in seen
    ensures Distinct(BomRefs(FreshImages(images, seen)))
  {
    FreshKeys(ImageRef, ImageComponent, (c: Component) => c.bomRef, images, seen);
  }

  lemma EmittedSplits(front: seq<Entry>, e: Entry)
    ensures BomRefs(Emitted(front + [e]))
         == BomRefs(Emitted(front)) + [e.component.bomRef] + BomRefs(FreshImages(e.images, ImagesOf(front)))
  {
    OneMore(front, e);
    var ref := (c: Component) => c.bomRef;
    MapOfJoin(ref, Emitted(front) + [e.component], FreshImages(e.images, ImagesOf(front)));
    MapOfJoin(ref, Emitted(front), [e.component]);
  }

  /** Every application and every image is emitted, and nothing else is. */
  lemma {:induction false} EmittedExactly(entries: seq<Entry>, r: string)
    ensures r in BomRefs(Emitted(entries)) <==> r in Refs(entries) || r in ImagesOf(entries)
  {
    if entries != [] {
      var front, e := entries[..|entries| - 1], entries[|entries| - 1];
      assert entries == front + [e];
      EmittedExactly(front, r);
      EmittedSplits(front, e);
      OneMore(front, e);
      FreshImageRefs(e.images, ImagesOf(front));
      MembersSplit(r, BomRefs(Emitted(front)), e.component.bomRef, BomRefs(FreshImages(e.images, ImagesOf(front))),
                   Refs(front), ImagesOf(front), Set(ImageRefs(e.images)));
    }
  }

  lemma MembersSplit<R>(r: R, emitted: seq<R>, x: R, more: seq<R>, refs: seq<R>, images: set<R>, added: set<R>)
    requires r in emitted <==> r in refs || r in images
    requires r in more <==> r in added && r !in images
    ensures r in emitted + [x] + more <==> r in refs + [x] || r in images + added
  {
  }

  /** When nothing clashes, no two emitted components share a reference, with each other or with the root. */
  lemma {:induction false} EmittedOnce(root: string, entries: seq<Entry>)
    requires NoClash(root, entries)
    ensures Distinct([root] + BomRefs(Emitted(entries)))
  {
    if entries != [] {
      var front, e := entries[..|entries| - 1], entries[|entries| - 1];
      assert entries == front + [e];
      NoClashWithoutLast(root, front, e);
      EmittedOnce(root, front);
      forall r
        ensures r in BomRefs(Emitted(front)) <==> r in Refs(front) || r in ImagesOf(front)
      {
        EmittedExactly(front, r);
      }
      ClashWithOneMore(root, front, e);
      FreshImageRefs(e.images, ImagesOf(front));
      EmittedSplits(front, e);
      StaysDistinct(root, BomRefs(Emitted(front)), e.component.bomRef, BomRefs(FreshImages(e.images, ImagesOf(front))),
                    Refs(front), ImagesOf(front), Set(ImageRefs(e.images)));
    }
  }

  lemma StaysDistinct<R>(root: R, emitted: seq<R>, x: R, more: seq<R>, refs: seq<R>, images: set<R>, added: set<R>)
    requires Distinct([root] + emitted) && Distinct(more)
    requires forall r :: r in emitted <==> r in refs || r in images
    requires forall r :: r in more <==> r in added && r !in images
    requires Apart([root] + refs, images) && Joins([root] + refs, images, x, added)
    ensures Distinct([root] + (emitted + [x] + more))
  {
    DistinctOneMore([root] + emitted, x);
    forall r | r in more
      ensures r !in [root] + emitted + [x]
    {
      assert r !in [root] + refs + [x];
    }
    DistinctJoin([root] + emitted + [x], more);
    assert [root] + (emitted + [x] + more) == [root] + emitted + [x] + more;
  }

  /** An edge of the dependency graph. */
  ghost predicate Linked(doc: Document, from: string, to: string) {
    exists d :: d in doc.dependencies && d.ref == from && to in d.targets
  }

  /** The edges the inputs ask for: the root to each application, each application to its images. */
  ghost predicate Deploys(root: string, entries: seq<Entry>, from: string, to: string) {
    || (from == root && to in Refs(entries))
    || exists e :: e in entries && e.component.bomRef == from && to in ImageRefs(e.images)
  }

  lemma {:induction false} EdgesAre(entries: seq<Entry>, d: Dependency)
    ensures d in Edges(entries) <==> exists e :: e in entries && d in Edge(e)
  {
    if entries != [] {
      var front, last := entries[..|entries| - 1], entries[|entries| - 1];
      assert entries == front + [last];
      EdgesAre(front, d);
    }
  }

  lemma RefListKeeps(refs: seq<string>)
    ensures forall r :: r in RefList(refs) <==> r in refs
  {
    StringsAreOrdered();
    SortSorts(Less, refs);
    SameElements(RefList(refs), refs);
  }

  lemma EdgeLinks(e: Entry, to: string)
    ensures (exists d :: d in Edge(e) && to in d.targets) <==> to in ImageRefs(e.images)
    ensures forall d :: d in Edge(e) ==> d.ref == e.component.bomRef
  {
    RefListKeeps(ImageRefs(e.images));
    if e.images != [] {
      assert Edge(e)[0] in Edge(e);
    }
  }

  lemma BuiltGraph(root: string, entries: seq<Entry>, from: string, to: string)
    ensures Linked(Built(root, entries), from, to) <==> Deploys(root, entries, from, to)
  {
    var doc := Built(root, entries);
    var top := Dependency(root, RefList(Refs(entries)));
    RefListKeeps(Refs(entries));
    if Linked(doc, from, to) {
      var d :| d in doc.dependencies && d.ref == from && to in d.targets;
      if d in Edges(entries) {
        EdgesAre(entries, d);
        var e :| e in entries && d in Edge(e);
        EdgeLinks(e, to);
      }
    }
    if Deploys(root, entries, from, to) {
      if from == root && to in Refs(entries) {
        assert doc.dependencies[0] == top;
      } else {
        var e :| e in entries && e.component.bomRef == from && to in ImageRefs(e.images);
        EdgeLinks(e, to);
        var d :| d in Edge(e) && to in d.targets;
        EdgesAre(entries, d);
        assert d in doc.dependencies;
      }
    }
  }

  lemma EntryHasRef(entries: seq<Entry>, e: Entry)
    requires e in entries
    ensures e.component.bomRef in Refs(entries)
  {
    var i :| 0 <= i < |entries| && entries[i] == e;
    assert Refs(entries)[i] == e.component.bomRef;
  }

  lemma {:induction false} EmittedGrows(a: seq<Entry>, b: seq<Entry>)
    ensures Emitted(a) <= Emitted(a + b)
  {
    if b == [] {
      assert a + b == a;
    } else {
      var front, e := b[..|b| - 1], b[|b| - 1];
      assert a + b == (a + front) + [e];
      EmittedGrows(a, front);
      OneMore(a + front, e);
    }
  }

  lemma NamesAreDistinct(root: string, surveys: seq<Survey>, pins: seq<Variant>)
    requires NoClash(root, Entries(root, surveys, pins))
    ensures Distinct(Map((r: Survey) => r.name, surveys))
  {
    var entries := Entries(root, surveys, pins);
    forall i, j | 0 <= i < j < |surveys|
      ensures surveys[i].name != surveys[j].name
    {
      assert ([root] + Refs(entries))[i + 1] == OfSurvey(root, surveys[i]).component.bomRef;
      assert ([root] + Refs(entries))[j + 1] == OfSurvey(root, surveys[j]).component.bomRef;
    }
  }

  lemma DistinctNamesDoNotTie(s: seq<Survey>)
    requires Distinct(Map((r: Survey) => r.name, s))
    ensures NoTies(ByName, s)
  {
    StringsAreOrdered();
    var names := Map((r: Survey) => r.name, s);
    forall i, j | 0 <= i < j < |s|
      ensures ByName(s[i], s[j]) || ByName(s[j], s[i])
    {
      assert names[i] == s[i].name && names[j] == s[j].name;
      assert Comparable(Less, s[i].name, s[j].name);
    }
  }

  lemma SortingsAgree(results: seq<Survey>, a: seq<Survey>, b: seq<Survey>)
    requires IsSorting(ByName, results, a) && IsSorting(ByName, results, b)
    requires Distinct(Map((r: Survey) => r.name, a))
    ensures a == b
  {
    var name := (r: Survey) => r.name;
    MapReordered(name, a, b);
    DistinctReordered(Map(name, a), Map(name, b));
    DistinctNamesDoNotTie(a);
    DistinctNamesDoNotTie(b);
    SurveysAndVariantsAreOrdered();
    SortingIsUnique(ByName, results, a, b);
  }

  /* ---- The same about the documents the builders return ---- */

  /** Sorting the inputs changes neither the references, nor the images, nor the edges they ask for. */
  lemma SortedInputsAskForTheSame(root: string, results: seq<Survey>, surveys: seq<Survey>,
                                  variants: seq<Variant>, pins: seq<Variant>)
    requires multiset(results) == multiset(surveys) && multiset(variants) == multiset(pins)
    ensures var a, b := Entries(root, surveys, pins), Entries(root, results, variants);
            && (forall e :: e in a <==> e in b) && (forall r :: r in Refs(a) <==> r in Refs(b))
  {
    var a, b := Entries(root, surveys, pins), Entries(root, results, variants);
    MapReordered(r => OfSurvey(root, r), results, surveys);
    MapReordered(v => OfVariant(root, v), variants, pins);
    assert multiset(a) == multiset(b);
    MapReordered((e: Entry) => e.component.bomRef, a, b);
    SameElements(a, b);
    SameElements(Refs(a), Refs(b));
  }

  /** No two components of a checked document share a reference, with each other or with the root. */
  lemma ReferencesAreUnique(doc: Document, name: string, results: seq<Survey>, variants: seq<Variant>)
    requires BuiltFrom(doc, name, results, variants) && InputsAreApart(name, results, variants)
    ensures Distinct([doc.root] + BomRefs(doc.components))
  {
    var surveys, pins :| && IsSorting(ByName, results, surveys) && IsSorting(ByNameAndVersion, variants, pins)
                         && doc == Built(Root(name), Entries(Root(name), surveys, pins));
    InputOrderIsIrrelevant(Root(name), results, surveys, variants, pins);
    EmittedOnce(Root(name), Entries(Root(name), surveys, pins));
  }

  /** A document emits every application and every image of its inputs, and nothing else. */
  lemma EverythingIsEmitted(doc: Document, name: string, results: seq<Survey>, variants: seq<Variant>, r: string)
    requires BuiltFrom(doc, name, results, variants)
    ensures var entries := Entries(Root(name), results, variants);
            r in BomRefs(doc.components) <==>
              r in Refs(entries) || exists e :: e in entries && r in ImageRefs(e.images)
  {
    var surveys, pins :| && IsSorting(ByName, results, surveys) && IsSorting(ByNameAndVersion, variants, pins)
                         && doc == Built(Root(name), Entries(Root(name), surveys, pins));
    SortedInputsAskForTheSame(Root(name), results, surveys, variants, pins);
    EmittedExactly(Entries(Root(name), surveys, pins), r);
    ImagesOfAre(Entries(Root(name), surveys, pins), r);
  }

  /** The dependency graph of a document is exactly the one its inputs ask for. */
  lemma TheGraphIsTheInput(doc: Document, name: string, results: seq<Survey>, variants: seq<Variant>,
                           from: string, to: string)
    requires BuiltFrom(doc, name, results, variants)
    ensures Linked(doc, from, to) <==> Deploys(Root(name), Entries(Root(name), results, variants), from, to)
  {
    var surveys, pins :| && IsSorting(ByName, results, surveys) && IsSorting(ByNameAndVersion, variants, pins)
                         && doc == Built(Root(name), Entries(Root(name), surveys, pins));
    SortedInputsAskForTheSame(Root(name), results, surveys, variants, pins);
    BuiltGraph(Root(name), Entries(Root(name), surveys, pins), from, to);
  }

  /** Every edge runs from the root or an emitted component to an emitted component. */
  lemma TheGraphIsClosed(doc: Document, name: string, results: seq<Survey>, variants: seq<Variant>,
                         from: string, to: string)
    requires BuiltFrom(doc, name, results, variants) && Linked(doc, from, to)
    ensures from in [doc.root] + BomRefs(doc.components) && to in BomRefs(doc.components)
  {
    TheGraphIsTheInput(doc, name, results, variants, from, to);
    EverythingIsEmitted(doc, name, results, variants, from);
    EverythingIsEmitted(doc, name, results, variants, to);
    var entries := Entries(Root(name), results, variants);
    if e :| e in entries && e.component.bomRef == from && to in ImageRefs(e.images) {
      EntryHasRef(entries, e);
    }
  }

  /** A checked document starts with the components of the unchecked one, whatever order the sorts settle on. */
  lemma LegacyComponentsComeFirst(doc: Document, legacy: Document, name: string, results: seq<Survey>,
                                  variants: seq<Variant>)
    requires BuiltFrom(doc, name, results, variants) && BuiltFrom(legacy, name, results, [])
    requires InputsAreApart(name, results, variants)
    ensures legacy.components <= doc.components
  {
    var root := Root(name);
    var surveys, pins :| && IsSorting(ByName, results, surveys) && IsSorting(ByNameAndVersion, variants, pins)
                         && doc == Built(root, Entries(root, surveys, pins));
    var again, none :| && IsSorting(ByName, results, again) && IsSorting(ByNameAndVersion, [], none)
                       && legacy == Built(root, Entries(root, again, none));
    SameElements([], none);
    InputOrderIsIrrelevant(root, results, surveys, variants, pins);
    NamesAreDistinct(root, surveys, pins);
    SortingsAgree(results, surveys, again);
    var base := Map(r => OfSurvey(root, r), surveys);
    assert Entries(root, again, none) == base;
    EmittedGrows(base, Map(v => OfVariant(root, v), pins));
  }

  /* ---- The inputs, spelled out ---- */

  lemma Cancel(p: string, a: string, b: string)
    ensures p + a == p + b <==> a == b
  {
    assert (p + a)[|p|..] == a && (p + b)[|p|..] == b;
  }

  /** What the references of the entries are, by position. */
  lemma RefsAre(root: string, results: seq<Survey>, variants: seq<Variant>)
    ensures var refs := Refs(Entries(root, results, variants));
            && |refs| == |results| + |variants|
            && (forall i :: 0 <= i < |results| ==> refs[i] == root + "/" + results[i].name)
            && (forall j :: 0 <= j < |variants| ==>
                  refs[|results| + j] == root + "/" + (variants[j].name + "@" + variants[j].version))
  {
    forall j | 0 <= j < |variants|
      ensures Refs(Entries(root, results, variants))[|results| + j]
           == root + "/" + (variants[j].name + "@" + variants[j].version)
    {
      VariantRef(root, variants[j]);
      assert Entries(root, results, variants)[|results| + j] == OfVariant(root, variants[j]);
    }
  }

  lemma VariantRef(root: string, v: Variant)
    ensures OfVariant(root, v).component.bomRef == root + "/" + (v.name + "@" + v.version)
  {
    Regroup(root + "/", v.name + "@", v.version);
    Regroup(root + "/", v.name, "@");
  }

  /** Distinctness of the root and the application references comes down to names and versions. */
  lemma WhenRefsAreDistinct(root: string, refs: seq<string>, tails: seq<string>)
    requires |refs| == |tails| && forall i :: 0 <= i < |refs| ==> refs[i] == root + "/" + tails[i]
    ensures Distinct([root] + refs) <==> Distinct(tails)
  {
    var all := [root] + refs;
    forall i | 0 <= i < |refs|
      ensures all[i + 1] == root + "/" + tails[i] != root
    {
    }
    if Distinct(tails) {
      forall i, j | 0 <= i < j < |all|
        ensures all[i] != all[j]
      {
        if i > 0 {
          Cancel(root + "/", tails[i - 1], tails[j - 1]);
          assert tails[i - 1] != tails[j - 1];
        } else {
          assert all[j] == refs[j - 1];
        }
      }
    }
    if Distinct(all) {
      forall i, j | 0 <= i < j < |tails|
        ensures tails[i] != tails[j]
      {
        assert all[i + 1] != all[j + 1];
      }
    }
  }

  /** What an application is called below the root. */
  function Tails(results: seq<Survey>, variants: seq<Variant>): seq<string> {
    Map((r: Survey) => r.name, results) + Map((v: Variant) => v.name + "@" + v.version, variants)
  }

  lemma WhenTailsAreDistinct(results: seq<Survey>, variants: seq<Variant>)
    ensures Distinct(Tails(results, variants)) <==>
              && (forall i, j :: 0 <= i < j < |results| ==> results[i].name != results[j].name)
              && (forall i, j :: 0 <= i < j < |variants| ==>
                    variants[i].name + "@" + variants[i].version != variants[j].name + "@" + variants[j].version)
              && (forall r, v :: r in results && v in variants ==> r.name != v.name + "@" + v.version)
  {
    var nameOf, tailOf := (r: Survey) => r.name, (v: Variant) => v.name + "@" + v.version;
    var a, b := Map(nameOf, results), Map(tailOf, variants);
    assert Tails(results, variants) == a + b;
    WhenJoinIsDistinct(a, b);
    MapMembers(nameOf, results);
    MapMembers(tailOf, variants);
    assert forall i :: 0 <= i < |results| ==> a[i] == results[i].name;
    assert forall i :: 0 <= i < |variants| ==> b[i] == variants[i].name + "@" + variants[i].version;
    assert forall r :: r in results ==> nameOf(r) == r.name;
    assert forall v :: v in variants ==> tailOf(v) == v.name + "@" + v.version;
  }

  lemma MapMembers<A(!new), B>(f: A -> B, s: seq<A>)
    ensures forall x :: x in s ==> f(x) in Map(f, s)
    ensures forall y :: y in Map(f, s) ==> exists x :: x in s && f(x) == y
  {
    forall x | x in s
      ensures f(x) in Map(f, s)
    {
      var i :| 0 <= i < |s| && s[i] == x;
      assert Map(f, s)[i] == f(x);
    }
    forall y | y in Map(f, s)
      ensures exists x :: x in s && f(x) == y
    {
      var i :| 0 <= i < |s| && Map(f, s)[i] == y;
      assert s[i] in s && f(s[i]) == y;
    }
  }

  lemma WhenJoinIsDistinct<T>(a: seq<T>, b: seq<T>)
    ensures Distinct(a + b) <==> Distinct(a) && Distinct(b) && forall x, y :: x in a && y in b ==> x != y
  {
    var all := a + b;
    if Distinct(a) && Distinct(b) && (forall x, y :: x in a && y in b ==> x != y) { DistinctJoin(a, b); }
    if Distinct(all) {
      forall i, j | 0 <= i < j < |a|
        ensures a[i] != a[j]
      {
        assert all[i] != all[j];
      }
      forall i, j | 0 <= i < j < |b|
        ensures b[i] != b[j]
      {
        assert all[|a| + i] != all[|a| + j];
      }
      forall i, j | 0 <= i < |a| && 0 <= j < |b|
        ensures a[i] != b[j]
      {
        assert all[i] != all[|a| + j];
      }
    }
  }

  /** The image `x` belongs to one of the inputs. */
  ghost predicate Asked(results: seq<Survey>, variants: seq<Variant>, x: string) {
    (exists r :: r in results && x in r.images) || (exists v :: v in variants && x in v.images)
  }

  lemma AskedIsDeployed(root: string, results: seq<Survey>, variants: seq<Variant>, x: string)
    ensures Deployed(Entries(root, results, variants), x) <==> Asked(results, variants, x)
    ensures ImageRef(x) in ImagesOf(Entries(root, results, variants)) <==> Asked(results, variants, x)
  {
    var entries := Entries(root, results, variants);
    EntriesAre(root, results, variants);
    ImagesOfAre(entries, ImageRef(x));
    forall e | e in entries
      ensures ImageRef(x) in ImageRefs(e.images) <==> x in e.images
    {
      MappedMember(e.images, x);
    }
    forall r | r in results
      ensures OfSurvey(root, r) in entries && OfSurvey(root, r).images == r.images
    {
    }
    forall v | v in variants
      ensures OfVariant(root, v) in entries && OfVariant(root, v).images == v.images
    {
    }
  }

  lemma EntriesAre(root: string, results: seq<Survey>, variants: seq<Variant>)
    ensures forall e :: e in Entries(root, results, variants) <==>
              || (exists r :: r in results && e == OfSurvey(root, r))
              || (exists v :: v in variants && e == OfVariant(root, v))
  {
    var entries := Entries(root, results, variants);
    forall r | r in results
      ensures OfSurvey(root, r) in entries
    {
      var i :| 0 <= i < |results| && results[i] == r;
      assert entries[i] == OfSurvey(root, r);
    }
    forall v | v in variants
      ensures OfVariant(root, v) in entries
    {
      var i :| 0 <= i < |variants| && variants[i] == v;
      assert entries[|results| + i] == OfVariant(root, v);
    }
  }

  /**
   The exact condition under which the checked builder accepts its inputs, read off their names, versions
   and images.
   */
  lemma WhenInputsAreApart(name: string, results: seq<Survey>, variants: seq<Variant>)
    ensures var root := if name == "" then "aicr" else name;
            InputsAreApart(name, results, variants) <==>
              && (forall i, j :: 0 <= i < j < |results| ==> results[i].name != results[j].name)
              && (forall i, j :: 0 <= i < j < |variants| ==>
                    variants[i].name + "@" + variants[i].version != variants[j].name + "@" + variants[j].version)
              && (forall r, v :: r in results && v in variants ==> r.name != v.name + "@" + v.version)
              && (forall x :: Asked(results, variants, x) ==>
                    && "img:" + x != root
                    && (forall r :: r in results ==> "img:" + x != root + "/" + r.name)
                    && (forall v :: v in variants ==> "img:" + x != root + "/" + (v.name + "@" + v.version)))
  {
    var root := if name == "" then "aicr" else name;
    var entries := Entries(root, results, variants);
    WhenApplicationsAreApart(root, results, variants);
    WhenImagesAreApart(root, results, variants);
    ImagesShareNoRef(root, results, variants);
    assert InputsAreApart(name, results, variants) <==>
             && Distinct([root] + Refs(entries))
             && forall ref :: ref in ImagesOf(entries) ==> ref !in [root] + Refs(entries);
  }

  lemma WhenApplicationsAreApart(root: string, results: seq<Survey>, variants: seq<Variant>)
    ensures Distinct([root] + Refs(Entries(root, results, variants))) <==>
              && (forall i, j :: 0 <= i < j < |results| ==> results[i].name != results[j].name)
              && (forall i, j :: 0 <= i < j < |variants| ==>
                    variants[i].name + "@" + variants[i].version != variants[j].name + "@" + variants[j].version)
              && (forall r, v :: r in results && v in variants ==> r.name != v.name + "@" + v.version)
  {
    RefsAre(root, results, variants);
    WhenRefsAreDistinct(root, Refs(Entries(root, results, variants)), Tails(results, variants));
    WhenTailsAreDistinct(results, variants);
  }

  lemma ImagesShareNoRef(root: string, results: seq<Survey>, variants: seq<Variant>)
    ensures (forall x :: Asked(results, variants, x) ==>
               "img:" + x !in [root] + Refs(Entries(root, results, variants))) <==>
            (forall x :: Asked(results, variants, x) ==>
               && "img:" + x != root
               && (forall r :: r in results ==> "img:" + x != root + "/" + r.name)
               && (forall v :: v in variants ==> "img:" + x != root + "/" + (v.name + "@" + v.version)))
  {
    forall x
      ensures "img:" + x !in [root] + Refs(Entries(root, results, variants)) <==>
                && "img:" + x != root
                && (forall r :: r in results ==> "img:" + x != root + "/" + r.name)
                && (forall v :: v in variants ==> "img:" + x != root + "/" + (v.name + "@" + v.version))
    {
      RefIs(root, results, variants, "img:" + x);
    }
  }

  lemma WhenImagesAreApart(root: string, results: seq<Survey>, variants: seq<Variant>)
    ensures var entries := Entries(root, results, variants);
            (forall ref :: ref in ImagesOf(entries) ==> ref !in [root] + Refs(entries)) <==>
            (forall x :: Asked(results, variants, x) ==> "img:" + x !in [root] + Refs(entries))
  {
    var entries := Entries(root, results, variants);
    var all := [root] + Refs(entries);
    if forall ref :: ref in ImagesOf(entries) ==> ref !in all {
      forall x | Asked(results, variants, x)
        ensures "img:" + x !in all
      {
        AskedIsDeployed(root, results, variants, x);
      }
    }
    if forall x :: Asked(results, variants, x) ==> "img:" + x !in all {
      forall ref | ref in ImagesOf(entries)
        ensures ref !in all
      {
        var x := ImageBehind(entries, ref);
        AskedIsDeployed(root, results, variants, x);
      }
    }
  }

  lemma ImageBehind(entries: seq<Entry>, ref: string) returns (x: string)
    requires ref in ImagesOf(entries)
    ensures ref == "img:" + x && Deployed(entries, x)
  {
    ImagesOfAre(entries, ref);
    var e :| e in entries && ref in ImageRefs(e.images);
    var i :| 0 <= i < |ImageRefs(e.images)| && ImageRefs(e.images)[i] == ref;
    x := e.images[i];
  }

  lemma RefIs(root: string, results: seq<Survey>, variants: seq<Variant>, ref: string)
    ensures ref in [root] + Refs(Entries(root, results, variants)) <==>
              || ref == root || (exists r :: r in results && ref == root + "/" + r.name)
              || (exists v :: v in variants && ref == root + "/" + (v.name + "@" + v.version))
  {
    ApplicationRefIs(root, results, variants, ref);
  }

  lemma ApplicationRefIs(root: string, results: seq<Survey>, variants: seq<Variant>, ref: string)
    ensures ref in Refs(Entries(root, results, variants)) <==>
              || (exists r :: r in results && ref == root + "/" + r.name)
              || (exists v :: v in variants && ref == root + "/" + (v.name + "@" + v.version))
  {
    var refs := Refs(Entries(root, results, variants));
    RefsAre(root, results, variants);
    if ref in refs {
      var i :| 0 <= i < |refs| && refs[i] == ref;
      if i < |results| {
        assert results[i] in results;
      } else {
        assert variants[i - |results|] in variants && refs[|results| + (i - |results|)] == ref;
      }
    }
    if r :| r in results && ref == root + "/" + r.name {
      var i :| 0 <= i < |results| && results[i] == r;
      assert refs[i] == ref;
    }
    if v :| v in variants && ref == root + "/" + (v.name + "@" + v.version) {
      var i :| 0 <= i < |variants| && variants[i] == v;
      assert refs[|results| + i] == ref;
    }
  }

  /**
   Ordinary inputs are accepted: one survey to a name, one variant to a name and version, no at sign in
   a name, and a root that does not look like an image reference.
   */
  lemma OrdinaryInputsAreApart(name: string, results: seq<Survey>, variants: seq<Variant>)
    requires forall i, j :: 0 <= i < j < |results| ==> results[i].name != results[j].name
    requires forall i, j :: 0 <= i < j < |variants| ==>
               variants[i].name != variants[j].name || variants[i].version != variants[j].version
    requires forall r :: r in results ==> '@' !in r.name
    requires forall v :: v in variants ==> '@' !in v.name
    requires !("img:" <= name)
    ensures InputsAreApart(name, results, variants)
  {
    WhenInputsAreApart(name, results, variants);
    forall i, j | 0 <= i < j < |variants|
      ensures variants[i].name + "@" + variants[i].version != variants[j].name + "@" + variants[j].version
    {
      if variants[i].name + "@" + variants[i].version == variants[j].name + "@" + variants[j].version {
        AtSplits(variants[i].name, variants[i].version, variants[j].name, variants[j].version);
      }
    }
    forall r, v | r in results && v in variants
      ensures r.name != v.name + "@" + v.version
    {
      assert (v.name + "@" + v.version)[|v.name|] == '@';
    }
    var root := if name == "" then "aicr" else name;
    if name == "" { assert root[0] != "img:"[0]; }
    forall x, tail
      ensures "img:" + x != root && "img:" + x != root + "/" + tail
    {
      NotAnImage(root, x, tail);
    }
  }

  lemma AtSplits(a: string, x: string, b: string, y: string)
    requires '@' !in a && '@' !in b && a + "@" + x == b + "@" + y
    ensures a == b && x == y
  {
    var s := a + "@" + x;
    assert s[|a|] == '@' && s[|b|] == '@';
    assert forall i :: 0 <= i < |a| ==> s[i] == a[i];
    assert forall i :: 0 <= i < |b| ==> s[i] == b[i];
    assert |a| == |b|;
    assert a == s[..|a|] == b;
    assert x == s[|a| + 1..] == y;
  }

  lemma NotAnImage(root: string, x: string, tail: string)
    requires !("img:" <= root)
    ensures "img:" + x != root && "img:" + x != root + "/" + tail
  {
    var s := root + "/" + tail;
    assert "img:" <= "img:" + x;
    if |root| < 4 {
      assert s[|root|] == '/' && '/' !in "img:";
    } else {
      assert s[..4] == root[..4] != "img:";
    }
  }

  lemma {:induction false} FreshAre<T, R, C>(key: T -> R, render: T -> C, items: seq<T>, seen: set<R>, c: C)
    requires forall x, y :: key(x) == key(y) ==> x == y
    ensures c in Fresh(key, render, items, seen) <==> exists x :: x in items && key(x) !in seen && c == render(x)
  {
    if items != [] {
      var front, last := items[..|items| - 1], items[|items| - 1];
      assert items == front + [last];
      FreshAre(key, render, front, seen, c);
      if key(last) in Map(key, front) {
        var i :| 0 <= i < |front| && Map(key, front)[i] == key(last);
        assert front[i] == last;
      }
    }
  }

  /** Every application and every image makes one component, and nothing else does. */
  lemma {:induction false} EmittedAre(entries: seq<Entry>, c: Component)
    ensures c in Emitted(entries) <==>
              || (exists e :: e in entries && c == e.component)
              || (exists x :: Deployed(entries, x) && c == ImageComponent(x))
  {
    if entries != [] {
      var front, last := entries[..|entries| - 1], entries[|entries| - 1];
      assert entries == front + [last];
      EmittedAre(front, c);
      forall x, y | ImageRef(x) == ImageRef(y)
        ensures x == y
      {
        ImageRefIsInjective(x, y);
      }
      FreshAre(ImageRef, ImageComponent, last.images, ImagesOf(front), c);
      forall x
        ensures Deployed(entries, x) <==> Deployed(front, x) || x in last.images
        ensures ImageRef(x) in ImagesOf(front) <==> Deployed(front, x)
      {
        ImageIsDeployed(front, x);
      }
    }
  }

  lemma ImageIsDeployed(entries: seq<Entry>, x: string)
    ensures ImageRef(x) in ImagesOf(entries) <==> Deployed(entries, x)
  {
    ImagesOfAre(entries, ImageRef(x));
    forall e | e in entries
      ensures ImageRef(x) in ImageRefs(e.images) <==> x in e.images
    {
      MappedMember(e.images, x);
    }
  }

  /**
   The components of a document, field by field: each survey, each variant with its version in its
   reference, each image, and nothing else.
   */
  lemma EveryComponentIsNamed(doc: Document, name: string, results: seq<Survey>, variants: seq<Variant>,
                              c: Component)
    requires BuiltFrom(doc, name, results, variants)
    ensures doc.root == if name == "" then "aicr" else name
    ensures c in doc.components <==>
              || (exists r :: r in results &&
                    c == Application(doc.root + "/" + r.name, r.name, r.version, r.displayName))
              || (exists v :: v in variants &&
                    c == Application(doc.root + "/" + (v.name + "@" + v.version), v.name, v.version, ""))
              || (exists x :: Asked(results, variants, x) &&
                    var p := ImageReference.Parsed(x);
                    c == Container("img:" + x, p.registry + "/" + p.repository,
                                   if p.digest != "" then p.digest else p.tag, ImageReference.PURL(p)))
  {
    var surveys, pins :| && IsSorting(ByName, results, surveys) && IsSorting(ByNameAndVersion, variants, pins)
                         && doc == Built(Root(name), Entries(Root(name), surveys, pins));
    var root := Root(name);
    SortedInputsAskForTheSame(root, results, surveys, variants, pins);
    SameDeployed(Entries(root, surveys, pins), Entries(root, results, variants));
    EmittedAre(Entries(root, surveys, pins), c);
    ApplicationsAre(root, results, variants, c);
    ContainersAre(root, results, variants, c);
  }

  lemma ApplicationsAre(root: string, results: seq<Survey>, variants: seq<Variant>, c: Component)
    ensures (exists e :: e in Entries(root, results, variants) && c == e.component) <==>
              || (exists r :: r in results && c == Application(root + "/" + r.name, r.name, r.version, r.displayName))
              || (exists v :: v in variants &&
                    c == Application(root + "/" + (v.name + "@" + v.version), v.name, v.version, ""))
  {
    EntriesAre(root, results, variants);
    var entries := Entries(root, results, variants);
    forall v: Variant
      ensures OfVariant(root, v).component ==
                Application(root + "/" + (v.name + "@" + v.version), v.name, v.version, "")
    {
      VariantRef(root, v);
    }
    if r :| r in results && c == Application(root + "/" + r.name, r.name, r.version, r.displayName) {
      assert OfSurvey(root, r) in entries;
    }
    if v :| v in variants && c == Application(root + "/" + (v.name + "@" + v.version), v.name, v.version, "") {
      assert OfVariant(root, v) in entries;
    }
  }

  lemma ContainersAre(root: string, results: seq<Survey>, variants: seq<Variant>, c: Component)
    ensures (exists x :: Deployed(Entries(root, results, variants), x) && c == ImageComponent(x)) <==>
            (exists x :: Asked(results, variants, x) &&
               var p := ImageReference.Parsed(x);
               c == Container("img:" + x, p.registry + "/" + p.repository,
                              if p.digest != "" then p.digest else p.tag, ImageReference.PURL(p)))
  {
    forall x
      ensures Deployed(Entries(root, results, variants), x) <==> Asked(results, variants, x)
    {
      AskedIsDeployed(root, results, variants, x);
    }
  }

  /** The edges, spelled out: from the root to every application, from an application to its own images. */
  lemma EveryEdgeIsNamed(doc: Document, name: string, results: seq<Survey>, variants: seq<Variant>,
                         from: string, to: string)
    requires BuiltFrom(doc, name, results, variants)
    ensures var root := if name == "" then "aicr" else name;
            (exists d :: d in doc.dependencies && d.ref == from && to in d.targets) <==>
              || (from == root && ((exists r :: r in results && to == root + "/" + r.name) ||
                                   (exists v :: v in variants && to == root + "/" + (v.name + "@" + v.version))))
              || (exists r, x :: r in results && x in r.images && from == root + "/" + r.name && to == "img:" + x)
              || (exists v, x :: v in variants && x in v.images && from == root + "/" + (v.name + "@" + v.version)
                                 && to == "img:" + x)
  {
    var root := Root(name);
    TheGraphIsTheInput(doc, name, results, variants, from, to);
    assert Linked(doc, from, to) <==> exists d :: d in doc.dependencies && d.ref == from && to in d.targets;
    ApplicationRefIs(root, results, variants, to);
    ImageTargets(root, results, variants, from, to);
  }

  lemma ImageTargets(root: string, results: seq<Survey>, variants: seq<Variant>, from: string, to: string)
    ensures (exists e :: e in Entries(root, results, variants) && e.component.bomRef == from
                         && to in ImageRefs(e.images)) <==>
              || (exists r, x :: r in results && x in r.images && from == root + "/" + r.name && to == "img:" + x)
              || (exists v, x :: v in variants && x in v.images && from == root + "/" + (v.name + "@" + v.version)
                                 && to == "img:" + x)
  {
    var entries := Entries(root, results, variants);
    EntriesAre(root, results, variants);
    forall v: Variant
      ensures OfVariant(root, v).component.bomRef == root + "/" + (v.name + "@" + v.version)
    {
      VariantRef(root, v);
    }
    if e :| e in entries && e.component.bomRef == from && to in ImageRefs(e.images) {
      var i :| 0 <= i < |ImageRefs(e.images)| && ImageRefs(e.images)[i] == to;
      assert e.images[i] in e.images && to == "img:" + e.images[i];
    }
    if r, x :| r in results && x in r.images && from == root + "/" + r.name && to == "img:" + x {
      MappedMember(r.images, x);
      assert OfSurvey(root, r) in entries;
    }
    if v, x :| v in variants && x in v.images && from == root + "/" + (v.name + "@" + v.version) && to == "img:" + x {
      MappedMember(v.images, x);
      assert OfVariant(root, v) in entries;
    }
  }

  /** The targets of every edge list are in ascending order. */
  lemma TargetsAreSorted(doc: Document, name: string, results: seq<Survey>, variants: seq<Variant>,
                         d: Dependency, i: nat, j: nat)
    requires BuiltFrom(doc, name, results, variants) && d in doc.dependencies && i < j < |d.targets|
    ensures !Less(d.targets[j], d.targets[i])
  {
    var surveys, pins :| && IsSorting(ByName, results, surveys) && IsSorting(ByNameAndVersion, variants, pins)
                         && doc == Built(Root(name), Entries(Root(name), surveys, pins));
    EdgeListsAreSorted(Root(name), Entries(Root(name), surveys, pins), d);
  }

  lemma EdgeListsAreSorted(root: string, entries: seq<Entry>, d: Dependency)
    requires d in Built(root, entries).dependencies
    ensures forall i, j :: 0 <= i < j < |d.targets| ==> !Less(d.targets[j], d.targets[i])
  {
    StringsAreOrdered();
    SortSorts(Less, Refs(entries));
    if d in Edges(entries) {
      EdgesAre(entries, d);
      var e :| e in entries && d in Edge(e);
      SortSorts(Less, ImageRefs(e.images));
    }
  }

  /**
   The dependency entries: the root's comes first, if there is any application; each application with images
   has one; none is without targets. Targets are listed as often as they are asked for.
   */
  lemma EveryDependencyIsNamed(doc: Document, name: string, results: seq<Survey>, variants: seq<Variant>,
                               d: Dependency)
    requires BuiltFrom(doc, name, results, variants) && d in doc.dependencies
    ensures doc.dependencies[0].ref == doc.root && d.targets != []
    ensures || (d.ref == doc.root && |d.targets| == |results| + |variants|)
            || (exists r :: r in results && d.ref == doc.root + "/" + r.name && Lists(d.targets, r.images))
            || (exists v :: v in variants && d.ref == doc.root + "/" + (v.name + "@" + v.version)
                            && Lists(d.targets, v.images))
  {
    var surveys, pins :| && IsSorting(ByName, results, surveys) && IsSorting(ByNameAndVersion, variants, pins)
                         && doc == Built(Root(name), Entries(Root(name), surveys, pins));
    assert |surveys| == |multiset(surveys)| == |multiset(results)| == |results|;
    assert |pins| == |multiset(pins)| == |multiset(variants)| == |variants|;
    SameElements(surveys, results);
    SameElements(pins, variants);
    DependenciesAre(Root(name), surveys, pins, d);
  }

  /** The targets are the references of the images, each as often as the image. */
  ghost predicate Lists(targets: seq<string>, images: seq<string>) {
    |targets| == |images| && forall x :: multiset(targets)["img:" + x] == multiset(images)[x]
  }

  lemma DependenciesAre(root: string, surveys: seq<Survey>, pins: seq<Variant>, d: Dependency)
    requires d in Built(root, Entries(root, surveys, pins)).dependencies
    ensures Built(root, Entries(root, surveys, pins)).dependencies[0].ref == root && d.targets != []
    ensures || (d.ref == root && |d.targets| == |surveys| + |pins|)
            || (exists r :: r in surveys && d.ref == root + "/" + r.name && Lists(d.targets, r.images))
            || (exists v :: v in pins && d.ref == root + "/" + (v.name + "@" + v.version)
                            && Lists(d.targets, v.images))
  {
    var entries := Entries(root, surveys, pins);
    RefListLists(Refs(entries));
    if d in Edges(entries) { EdgeIs(root, surveys, pins, d); }
  }

  lemma EdgeIs(root: string, surveys: seq<Survey>, pins: seq<Variant>, d: Dependency)
    requires d in Edges(Entries(root, surveys, pins))
    ensures d.targets != []
    ensures || (exists r :: r in surveys && d.ref == root + "/" + r.name && Lists(d.targets, r.images))
            || (exists v :: v in pins && d.ref == root + "/" + (v.name + "@" + v.version)
                            && Lists(d.targets, v.images))
  {
    var entries := Entries(root, surveys, pins);
    EdgesAre(entries, d);
    var e :| e in entries && d in Edge(e);
    EdgeOf(e, d);
    EntriesAre(root, surveys, pins);
    if r :| r in surveys && e == OfSurvey(root, r) {
      assert d.ref == root + "/" + r.name;
    } else {
      var v :| v in pins && e == OfVariant(root, v);
      VariantRef(root, v);
    }
  }

  lemma EdgeOf(e: Entry, d: Dependency)
    requires d in Edge(e)
    ensures d.ref == e.component.bomRef && d.targets != [] && Lists(d.targets, e.images)
  {
    ImagesAreListed(e.images);
  }

  lemma RefListLists(refs: seq<string>)
    ensures multiset(RefList(refs)) == multiset(refs) && |RefList(refs)| == |refs|
  {
    StringsAreOrdered();
    SortSorts(Less, refs);
    assert |RefList(refs)| == |multiset(RefList(refs))| == |refs|;
  }

  lemma ImagesAreListed(images: seq<string>)
    ensures Lists(RefList(ImageRefs(images)), images)
  {
    RefListLists(ImageRefs(images));
    forall x
      ensures multiset(ImageRefs(images))["img:" + x] == multiset(images)[x]
    {
      CountedAlike(images, x);
    }
  }

  lemma {:induction false} CountedAlike(images: seq<string>, x: string)
    ensures multiset(ImageRefs(images))["img:" + x] == multiset(images)[x]
  {
    if images != [] {
      var front, last := images[..|images| - 1], images[|images| - 1];
      assert images == front + [last];
      CountedAlike(front, x);
      ImageRefIsInjective(last, x);
    }
  }

  /** The application components, in the order of the document. */
  function Applications(components: seq<Component>): seq<Component> {
    if components == [] then []
    else
      var last := components[|components| - 1];
      Applications(components[..|components| - 1]) + if last.Application? then [last] else []
  }

  /** Surveys come first, by name; then the variants, by name and version. */
  lemma ApplicationsAreSorted(doc: Document, name: string, results: seq<Survey>, variants: seq<Variant>)
    requires BuiltFrom(doc, name, results, variants)
    ensures var apps, n := Applications(doc.components), |results|;
            && |apps| == n + |variants|
            && (forall i, j :: 0 <= i < j < n ==> !Less(apps[j].name, apps[i].name))
            && (forall i, j :: n <= i < j < |apps| ==>
                  !Less(apps[j].name, apps[i].name)
                  && (apps[i].name == apps[j].name ==> !Less(apps[j].version, apps[i].version)))
            && (forall i :: 0 <= i < n ==>
                  exists r :: r in results && apps[i] == Application(doc.root + "/" + r.name, r.name, r.version,
                                                                     r.displayName))
  {
    var surveys, pins :| && IsSorting(ByName, results, surveys) && IsSorting(ByNameAndVersion, variants, pins)
                         && doc == Built(Root(name), Entries(Root(name), surveys, pins));
    EntriesAreApplications(Root(name), surveys, pins);
    ApplicationsOfEmitted(Entries(Root(name), surveys, pins));
    assert |surveys| == |multiset(surveys)| == |multiset(results)| == |results|;
    assert |pins| == |multiset(pins)| == |multiset(variants)| == |variants|;
    SameElements(surveys, results);
    SortedEntries(Root(name), surveys, pins);
  }

  lemma SortedEntries(root: string, surveys: seq<Survey>, pins: seq<Variant>)
    requires Ascending(ByName, surveys) && Ascending(ByNameAndVersion, pins)
    ensures var apps, n := Map((e: Entry) => e.component, Entries(root, surveys, pins)), |surveys|;
            && |apps| == n + |pins|
            && (forall i, j :: 0 <= i < j < n ==> !Less(apps[j].name, apps[i].name))
            && (forall i, j :: n <= i < j < |apps| ==>
                  !Less(apps[j].name, apps[i].name)
                  && (apps[i].name == apps[j].name ==> !Less(apps[j].version, apps[i].version)))
            && (forall i :: 0 <= i < n ==>
                  surveys[i] in surveys &&
                  apps[i] == Application(root + "/" + surveys[i].name, surveys[i].name, surveys[i].version,
                                         surveys[i].displayName))
  {
    var apps, n := Map((e: Entry) => e.component, Entries(root, surveys, pins)), |surveys|;
    assert forall i :: 0 <= i < n ==> apps[i] == OfSurvey(root, surveys[i]).component;
    forall i | n <= i < |apps|
      ensures apps[i].name == pins[i - n].name && apps[i].version == pins[i - n].version
    {
      assert Entries(root, surveys, pins)[i] == OfVariant(root, pins[i - n]);
    }
    forall i, j | 0 <= i < j < n
      ensures !Less(apps[j].name, apps[i].name)
    {
      assert !ByName(surveys[j], surveys[i]);
    }
    forall i, j | n <= i < j < |apps|
      ensures !Less(apps[j].name, apps[i].name)
      ensures apps[i].name == apps[j].name ==> !Less(apps[j].version, apps[i].version)
    {
      assert !ByNameAndVersion(pins[j - n], pins[i - n]);
      LessConnects(apps[i].name, apps[i].name);
    }
  }

  lemma {:induction false} ApplicationsOfEmitted(entries: seq<Entry>)
    requires forall e :: e in entries ==> e.component.Application?
    ensures Applications(Emitted(entries)) == Map((e: Entry) => e.component, entries)
  {
    if entries != [] {
      var front, e := entries[..|entries| - 1], entries[|entries| - 1];
      assert forall q :: q in front ==> q in entries;
      assert e in entries;
      ApplicationsOfEmitted(front);
      var images := FreshImages(e.images, ImagesOf(front));
      FreshIsRendered(ImageRef, ImageComponent, e.images, ImagesOf(front));
      NoApplication(Fresh(ImageRef, Same, e.images, ImagesOf(front)));
      ApplicationsOfJoin(Emitted(front) + [e.component], images);
      ApplicationsOfJoin(Emitted(front), [e.component]);
      assert [e.component][..0] == [];
    }
  }

  lemma {:induction false} NoApplication(images: seq<string>)
    ensures Applications(Map(ImageComponent, images)) == []
  {
    if images != [] {
      var front := images[..|images| - 1];
      assert Map(ImageComponent, images)[..|images| - 1] == Map(ImageComponent, front);
      NoApplication(front);
    }
  }

  lemma {:induction false} ApplicationsOfJoin(a: seq<Component>, b: seq<Component>)
    ensures Applications(a + b) == Applications(a) + Applications(b)
  {
    if b == [] {
      assert a + b == a;
    } else {
      var front, last := b[..|b| - 1], b[|b| - 1];
      assert (a + b)[..|a + b| - 1] == a + front;
      ApplicationsOfJoin(a, front);
      Regroup(Applications(a), Applications(front), if last.Application? then [last] else []);
    }
  }

  /* ---- Package URLs ---- */

  function PurlOf(image: string): string {
    ImageReference.PURL(ImageReference.Parsed(image))
  }

  /** The Package URLs of the container components. */
  function Purls(components: seq<Component>): seq<string> {
    if components == [] then []
    else
      var last := components[|components| - 1];
      Purls(components[..|components| - 1]) + if last.Container? then [last.purl] else []
  }

  function Same<T>(x: T): T {
    x
  }

  /** The images in the order in which they are emitted. */
  function FirstImages(entries: seq<Entry>): seq<string> {
    if entries == [] then []
    else
      var front, last := entries[..|entries| - 1], entries[|entries| - 1];
      FirstImages(front) + Fresh(ImageRef, Same, last.images, ImagesOf(front))
  }

  ghost predicate Deployed(entries: seq<Entry>, image: string) {
    exists e :: e in entries && image in e.images
  }

  lemma {:induction false} PurlsOfJoin(a: seq<Component>, b: seq<Component>)
    ensures Purls(a + b) == Purls(a) + Purls(b)
  {
    if b == [] {
      assert a + b == a;
    } else {
      var front, last := b[..|b| - 1], b[|b| - 1];
      assert (a + b)[..|a + b| - 1] == a + front;
      PurlsOfJoin(a, front);
      Regroup(Purls(a), Purls(front), if last.Container? then [last.purl] else []);
    }
  }

  /** `render` makes a container with the Package URL `purl`. */
  ghost predicate RendersPurl(render: string -> Component, purl: string -> string) {
    forall x :: render(x).Container? && render(x).purl == purl(x)
  }

  lemma {:induction false} PurlsOfRendered(render: string -> Component, purl: string -> string, images: seq<string>)
    requires RendersPurl(render, purl)
    ensures Purls(Map(render, images)) == Map(purl, images)
  {
    if images != [] {
      var front, last := images[..|images| - 1], images[|images| - 1];
      assert Map(render, images)[..|images| - 1] == Map(render, front);
      PurlsOfRendered(render, purl, front);
    }
  }

  lemma {:induction false} FreshIsRendered<T, R, C>(key: T -> R, render: T -> C, items: seq<T>, seen: set<R>)
    ensures Fresh(key, render, items, seen) == Map(render, Fresh(key, Same, items, seen))
  {
    if items != [] {
      var front, last := items[..|items| - 1], items[|items| - 1];
      FreshIsRendered(key, render, front, seen);
      MapOfJoin(render, Fresh(key, Same, front, seen), [last]);
      assert Map(render, [last]) == [render(last)];
    }
  }

  lemma PurlsOfFresh(key: string -> string, render: string -> Component, purl: string -> string,
                     images: seq<string>, seen: set<string>)
    requires RendersPurl(render, purl)
    ensures Purls(Fresh(key, render, images, seen)) == Map(purl, Fresh(key, Same, images, seen))
  {
    FreshIsRendered(key, render, images, seen);
    PurlsOfRendered(render, purl, Fresh(key, Same, images, seen));
  }

  lemma PurlsOfMore(components: seq<Component>, c: Component, more: seq<Component>)
    requires c.Application?
    ensures Purls(components + [c] + more) == Purls(components) + Purls(more)
  {
    PurlsOfJoin(components + [c], more);
    PurlsOfJoin(components, [c]);
    NoPurl(c);
  }

  lemma NoPurl(c: Component)
    requires c.Application?
    ensures Purls([c]) == []
  {
    assert [c][..0] == [];
  }

  lemma {:induction false} PurlsOfEmitted(entries: seq<Entry>)
    requires forall e :: e in entries ==> e.component.Application?
    ensures Purls(Emitted(entries)) == Map(PurlOf, FirstImages(entries))
  {
    if entries != [] {
      var front, e := entries[..|entries| - 1], entries[|entries| - 1];
      assert forall q :: q in front ==> q in entries;
      assert e in entries;
      PurlsOfEmitted(front);
      PurlsOfMore(Emitted(front), e.component, FreshImages(e.images, ImagesOf(front)));
      PurlsOfFresh(ImageRef, ImageComponent, PurlOf, e.images, ImagesOf(front));
      MapOfJoin(PurlOf, FirstImages(front), Fresh(ImageRef, Same, e.images, ImagesOf(front)));
    }
  }

  /** Every image is emitted once. */
  lemma {:induction false} FirstImagesAre(entries: seq<Entry>)
    ensures Distinct(Map(ImageRef, FirstImages(entries)))
    ensures forall r :: r in Map(ImageRef, FirstImages(entries)) <==> r in ImagesOf(entries)
  {
    if entries != [] {
      var front, e := entries[..|entries| - 1], entries[|entries| - 1];
      var firsts := Fresh(ImageRef, Same, e.images, ImagesOf(front));
      FirstImagesAre(front);
      FreshKeys(ImageRef, Same, ImageRef, e.images, ImagesOf(front));
      MapOfJoin(ImageRef, FirstImages(front), firsts);
      DistinctJoin(Map(ImageRef, FirstImages(front)), Map(ImageRef, firsts));
    }
  }

  lemma ImageRefIsInjective(a: string, b: string)
    ensures ImageRef(a) == ImageRef(b) <==> a == b
  {
    assert ImageRef(a)[4..] == a && ImageRef(b)[4..] == b;
  }

  lemma FirstImagesAreTheDeployed(entries: seq<Entry>)
    ensures Distinct(FirstImages(entries))
    ensures forall x :: x in FirstImages(entries) <==> Deployed(entries, x)
  {
    var images := FirstImages(entries);
    FirstImagesAre(entries);
    forall x
      ensures x in images <==> Deployed(entries, x)
    {
      ImagesOfAre(entries, ImageRef(x));
      MappedMember(images, x);
      forall e | e in entries
        ensures ImageRef(x) in ImageRefs(e.images) <==> x in e.images
      {
        MappedMember(e.images, x);
      }
    }
    forall i, j | 0 <= i < j < |images|
      ensures images[i] != images[j]
    {
      assert Map(ImageRef, images)[i] != Map(ImageRef, images)[j];
    }
  }

  lemma MappedMember(images: seq<string>, x: string)
    ensures ImageRef(x) in Map(ImageRef, images) <==> x in images
  {
    var refs := Map(ImageRef, images);
    if ImageRef(x) in refs {
      var i :| 0 <= i < |refs| && refs[i] == ImageRef(x);
      ImageRefIsInjective(images[i], x);
    }
    if x in images {
      var i :| 0 <= i < |images| && images[i] == x;
      assert refs[i] == ImageRef(x);
    }
  }

  lemma DistinctWhenApart<A(!new), B>(f: A -> B, s: seq<A>)
    requires Distinct(s)
    ensures Distinct(Map(f, s)) <==> forall x, y :: x in s && y in s && x != y ==> f(x) != f(y)
  {
    var t := Map(f, s);
    if Distinct(t) {
      forall x, y | x in s && y in s && x != y
        ensures f(x) != f(y)
      {
        var i, j :| 0 <= i < |s| && 0 <= j < |s| && s[i] == x && s[j] == y;
        assert t[i] == f(x) && t[j] == f(y);
      }
    }
    if forall x, y :: x in s && y in s && x != y ==> f(x) != f(y) {
      forall i, j | 0 <= i < j < |t|
        ensures t[i] != t[j]
      {
        assert s[i] in s && s[j] in s && s[i] != s[j];
      }
    }
  }

  /** Two spellings of a reference share a Package URL exactly when they parse to the same reference. */
  lemma PurlsAgree(x: string, y: string)
    requires ImageReference.UrlSafe(ImageReference.Parsed(x)) && ImageReference.UrlSafe(ImageReference.Parsed(y))
    ensures PurlOf(x) == PurlOf(y) <==> ImageReference.Parsed(x) == ImageReference.Parsed(y)
  {
    ImageReference.ThePURLIsTheReference(ImageReference.Parsed(x), ImageReference.Parsed(y));
  }

  /** No image of the inputs is spelled in two ways. */
  ghost predicate SpelledOnce(entries: seq<Entry>) {
    forall x, y :: Deployed(entries, x) && Deployed(entries, y) && x != y ==>
      ImageReference.Parsed(x) != ImageReference.Parsed(y)
  }

  lemma EntriesAreApplications(root: string, surveys: seq<Survey>, pins: seq<Variant>)
    ensures forall e :: e in Entries(root, surveys, pins) ==> e.component.Application?
  {
  }

  lemma EmittedPurls(entries: seq<Entry>)
    requires forall e :: e in entries ==> e.component.Application?
    requires forall x :: Deployed(entries, x) ==> ImageReference.UrlSafe(ImageReference.Parsed(x))
    ensures Distinct(Purls(Emitted(entries))) <==> SpelledOnce(entries)
  {
    PurlsOfEmitted(entries);
    FirstImagesAreTheDeployed(entries);
    var images := FirstImages(entries);
    DistinctWhenApart(PurlOf, images);
    forall x, y | x in images && y in images
      ensures PurlOf(x) == PurlOf(y) <==> ImageReference.Parsed(x) == ImageReference.Parsed(y)
    {
      PurlsAgree(x, y);
    }
  }

  lemma SameDeployed(a: seq<Entry>, b: seq<Entry>)
    requires forall e :: e in a <==> e in b
    ensures forall x :: Deployed(a, x) <==> Deployed(b, x)
    ensures SpelledOnce(a) <==> SpelledOnce(b)
  {
    assert forall x :: Deployed(a, x) <==> Deployed(b, x);
  }

  /** The Package URLs of a document are distinct exactly when no image of the inputs is spelled in two ways. */
  lemma PackageURLsAreUnique(doc: Document, name: string, results: seq<Survey>, variants: seq<Variant>)
    requires BuiltFrom(doc, name, results, variants)
    requires forall x :: Deployed(Entries(Root(name), results, variants), x) ==>
               ImageReference.UrlSafe(ImageReference.Parsed(x))
    ensures Distinct(Purls(doc.components)) <==> SpelledOnce(Entries(Root(name), results, variants))
  {
    var surveys, pins :| && IsSorting(ByName, results, surveys) && IsSorting(ByNameAndVersion, variants, pins)
                         && doc == Built(Root(name), Entries(Root(name), surveys, pins));
    SortedInputsAskForTheSame(Root(name), results, surveys, variants, pins);
    SameDeployed(Entries(Root(name), surveys, pins), Entries(Root(name), results, variants));
    EntriesAreApplications(Root(name), surveys, pins);
    EmittedPurls(Entries(Root(name), surveys, pins));
  }

  lemma TwoFresh<T, R, C>(key: T -> R, render: T -> C, a: T, b: T)
    requires key(a) != key(b)
    ensures Fresh(key, render, [a, b], {}) == [render(a), render(b)]
  {
    assert [a, b][..1] == [a] && [a][..0] == [];
    assert Map(key, [a]) == [key(a)];
    assert Fresh(key, render, [a], {}) == [render(a)];
  }

  function FullSpelling(name: string): string {
    "docker.io" + "/" + ("library/" + name)
  }

  /**
   A Docker Hub short name and its full spelling are one image to the Package URL and two to the
   document: images are told apart by their spelling.
   */
  lemma SpellingsAreListedTwice(name: string)
    requires '/' !in name && '@' !in name
    ensures FreshImages([name, FullSpelling(name)], {}) == [ImageComponent(name), ImageComponent(FullSpelling(name))]
    ensures ImageComponent(name).bomRef != ImageComponent(FullSpelling(name)).bomRef
    ensures ImageComponent(name).purl == ImageComponent(FullSpelling(name)).purl
  {
    assert |FullSpelling(name)| != |name|;
    ImageRefIsInjective(name, FullSpelling(name));
    TwoFresh(ImageRef, ImageComponent, name, FullSpelling(name));
    SpellingsParseAlike(name);
  }

  lemma SpellingsParseAlike(name: string)
    requires '/' !in name && '@' !in name
    ensures ImageReference.Parsed(name) == ImageReference.Parsed(FullSpelling(name))
  {
    ImageReference.ShortNamesAreCanonical(name, "");
    assert name + ImageReference.Suffix('@', "") == name;
    assert FullSpelling(name) + ImageReference.Suffix('@', "") == FullSpelling(name);
  }
}
